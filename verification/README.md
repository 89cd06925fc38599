# CivicDesk core, modelled in Dafny

CivicDesk is a civic-issue reporting service. Citizens sign up, confirm
their e-mail with a six-digit one-time code and log in; a logged-in citizen
may submit at most three reports per calendar day. Employees log in on a
separate route. A district employee sees and updates only the reports of
their own district. A Super Admin manages employee accounts, views a heat
map of report counts and keeps the list of authority contacts. The browser
pages add three small state machines: the community feed (upvote toggle and
sort orders), the OTP entry page (six cells, paste, verify) and the
report-issue form.

This project states that behaviour as pure Dafny functions over immutable
data and proves properties about it:

- `Store`: each collection is a table of optional records indexed by id.
  Ids are never reused, and a deleted record leaves an empty slot.
- `Users`, `Employees`, `Reports`, `Authorities`: the schemas. They cover
  field normalisation (trim, lower-case), required fields, enums and
  unique keys.
- `Tokens`: what a signed token carries and how long it lives.
  Hashing and token verification are function parameters
  (`Crypto`, `Verifier`).
- `Middleware`, `Permissions`, `AdminRoutes`: bearer-header parsing, the
  citizen and employee gates, the Super Admin gate, and the guard each
  admin route applies.
- `AuthController`: citizen sign-up, code verification and login. The code
  generator's randomness is a `seed` parameter. The clock is a `now`
  parameter. Whether the mail was sent is a `mailOk` parameter.
- `ReportController`: submission with the daily limit. Local midnight is
  the `dayStart` parameter.
- `AdminController`, `Heatmap`, `Analytics`, `AuthorityAdmin`: the
  employee-facing handlers, including the grouped count behind the heat
  map.
- `CommunityFeed`, `OtpPage`, `ReportForm`: the browser-side transformers.
  `OtpPageLaws` states the order the page's digit filter keeps, and
  connects its resend to the sign-up endpoint it calls.
- `Common` and `Sorting`: shared string and ordering helpers.

A handler's reply is `Reply<T>`: either `Ok(status, message, body)` or
`Err(status, message)`. The status codes and messages are the source's
own. A handler that writes returns the new collection together with the
reply. On every error path the model proves that nothing was written,
except where the source itself writes before failing.

## Model

| member | source | states |
|---|---|---|
| Tokens.CitizenSession | backend/controllers/authController.js:104-105 | a citizen token carries only the user id and lives five days (432000 s) |
| Tokens.EmployeeSession | backend/controllers/adminController.js:22-30 | an employee token carries only the employee claim and lives eight hours (28800 s) |
| Users.NormalizeEmail | backend/schemas/UserSchema.js:5-10 | a stored citizen email is lower-case, the same length as the input, and a fixed point of lower-casing |
| Users.FindByEmail | backend/controllers/authController.js:14 | the lookup returns a stored account whose email equals the normalised query, or proves that no stored account has it |
| Users.FindByEmailUnique | backend/schemas/UserSchema.js:8 | with unique emails, the lookup by an account's own email returns exactly that account |
| Employees.ParseRole | backend/schemas/EmployeeSchema.js:21-25 | a role string is accepted exactly when it is "Super Admin" or "Employee", and it parses back to the same name |
| Employees.RoleNameRoundTrip | backend/schemas/EmployeeSchema.js:21-25 | printing a role and parsing it again gives the role back |
| Employees.DistrictRequiredIffEmployee | backend/schemas/EmployeeSchema.js:26-32 | with the other fields valid, an account without a district validates exactly when its role is Super Admin |
| Employees.NewEmployee | backend/schemas/EmployeeSchema.js:5-36 | a new account is active, stores the hash of its password, a trimmed lower-case email and a trimmed name |
| Employees.FindByEmail | backend/controllers/adminController.js:12 | the lookup returns an account whose stored email equals the trimmed lower-case query, or proves that none has it |
| Employees.ClaimOf | backend/controllers/adminController.js:22-28 | the token claim carries the account's id and district, and its role is "Super Admin" exactly when the account's is |
| Reports.ParseStatus | backend/schemas/ReportSchema.js:45-49 | a status string is accepted exactly when it is pending, approved or rejected, and it parses back to the same name |
| Reports.StatusNameRoundTrip | backend/schemas/ReportSchema.js:45-49 | printing a status and parsing it again gives the status back |
| Reports.NewReport | backend/schemas/ReportSchema.js:3-56 | a new report satisfies the schema (a trimmed, non-empty title of at most 100 UTF-16 code units, the other fields present), starts pending with no upvotes, carries the trimmed submitted title, and keeps its owner, location, content and photo |
| Reports.AstralTitleTooLong | backend/schemas/ReportSchema.js:10-15 | the title limit counts UTF-16 code units: a title of sixty emoji is 120 units long and is refused |
| Authorities.NormalizePlace | backend/schemas/AuthoritySchema.js:5-21 | each stored location part is trimmed and a fixed point of trimming |
| Authorities.NewAuthority | backend/schemas/AuthoritySchema.js:3-39 | a new contact stores the trimmed location, the trimmed lower-case email and the trimmed optional fields |
| Authorities.FindByLocation | backend/schemas/AuthoritySchema.js:42 | the lookup returns a contact at exactly that location, or proves that none is there |
| Middleware.BearerToken | backend/middleware/authMiddleware.js:12-16 | a token is extracted exactly when the header exists and starts with "Bearer "; it is the text after the prefix up to the next space |
| Middleware.SecondSegment | backend/middleware/authMiddleware.js:16 | for a "Bearer " header, the second space-separated piece is the text after the prefix up to the next space |
| Middleware.BearerRoundTrip | backend/middleware/authMiddleware.js:12-16 | a space-free token placed after "Bearer " is extracted unchanged |
| Middleware.AuthenticateCitizen | backend/middleware/authMiddleware.js:7-33 | a missing or malformed header is 401 "token required"; a token that fails verification is 401 "invalid or expired"; otherwise the request passes with the decoded user slot |
| Middleware.AuthenticateEmployee | backend/middleware/adminAuthMiddleware.js:6-29 | the same gate, passing the decoded employee slot |
| Middleware.SameAcceptance | backend/middleware/adminAuthMiddleware.js:6-29 | both gates accept the same headers and refuse the others with the same message |
| Permissions.IsSuperAdmin | backend/middleware/permissionsMiddleware.js:1-8 | the gate passes exactly when an employee claim with role "Super Admin" is attached; it passes that claim on untouched; otherwise it answers 403 |
| AdminRoutes.Admit | backend/routes/adminRoutes.js:24-42 | login is public; the report routes apply the employee gate; the Super Admin routes pass exactly when a verified token carries a Super Admin claim |
| AdminRoutes.AuthenticationFirst | backend/routes/adminRoutes.js:27-42 | on every protected route a missing or bad token is refused with 401 and never with 403 |
| AdminRoutes.DistrictEmployeeScope | backend/routes/adminRoutes.js:27-42 | a district employee's token passes the report routes and is refused with 403 on every Super Admin route |
| AdminRoutes.CitizenTokenOnAdminRoutes | backend/routes/adminRoutes.js:27-42 | a citizen token passes the report routes with no employee attached and is refused with 403 on the Super Admin routes |
| AuthController.GenerateOtp | backend/controllers/authController.js:20-24 | the generated code is exactly six decimal digits |
| AuthController.OtpEncodesSeed | backend/controllers/authController.js:20-24 | the code's decimal value is the seed modulo 10^6, so every six-digit code is reachable |
| AuthController.Challenge | backend/controllers/authController.js:27-43 | a pending verification holds the hashed code and expires ten minutes (600000 ms) after now |
| AuthController.Signup | backend/controllers/authController.js:10-67 | a verified email is 400 with no write; an unverified account is overwritten in place; a new email is inserted; the account is saved before the mail is sent, so a mail failure is 500 with the record written |
| AuthController.SignupPreservesUniqueEmails | backend/controllers/authController.js:29-48 | sign-up keeps citizen emails unique and lower-case |
| AuthController.VerifyOtp | backend/controllers/authController.js:72-117 | unknown 404; already verified 400; expired 400; wrong code 400, each with no write; a correct code in time marks only that account verified and returns a citizen token |
| AuthController.VerifyOnlyOnce | backend/controllers/authController.js:84-101 | after one successful verification, every further attempt with any code at any time is "already verified" |
| AuthController.Login | backend/controllers/authController.js:120-156 | unknown 404; unverified 400 before any password check; wrong password 400; otherwise a citizen token |
| AuthController.UnverifiedLoginIgnoresPassword | backend/controllers/authController.js:128-140 | for an unverified account the reply does not depend on the password and is never "Invalid credentials." |
| AuthController.SignupVerifyLogin | backend/controllers/authController.js:10-156 | after a successful sign-up, the mailed code verifies within ten minutes, and the password then logs in |
| ReportController.DailyCount | backend/controllers/reportController.js:21-26 | the daily count never exceeds the ledger's length |
| ReportController.DailyCountCountsToday | backend/controllers/reportController.js:21-26 | the daily count is the number of ledger positions submitted at or after local midnight |
| ReportController.EarlierDaysDoNotCount | backend/controllers/reportController.js:21-26 | a ledger whose entries all predate midnight counts zero |
| ReportController.DailyCountAppend | backend/controllers/reportController.js:42 | appending an entry raises the count by one exactly when the entry is from today |
| ReportController.SubmitReport | backend/controllers/reportController.js:6-53 | no claim 500; unknown user 404; three or more today 429, each with no write; a valid report is stored under the next id with the submitted title (trimmed), content, photo and location, and appended to the citizen's ledger |
| ReportController.SubmitRequest | backend/middleware/authMiddleware.js:20-26 | a refused header is 401 with no write; otherwise the handler runs with the decoded user slot |
| ReportController.EmployeeTokenCannotSubmit | backend/controllers/reportController.js:9 | a valid employee token creates no report and changes no ledger |
| ReportController.SuccessCountsOnce | backend/controllers/reportController.js:42-43 | a successful submission raises the citizen's daily count by exactly one |
| ReportController.FourthSubmissionRejected | backend/controllers/reportController.js:24-30 | after three successful submissions on one day, a fourth on that day is 429 and writes nothing |
| ReportController.NewDayAdmitsSubmission | backend/controllers/reportController.js:21-30 | when every ledger entry predates midnight, a valid report is accepted |
| AdminController.AdminLogin | backend/controllers/adminController.js:8-42 | an unknown or inactive account is 401 with the "or account is inactive" message; a wrong password is 401 "Invalid credentials."; otherwise an eight-hour token carries the account's claim |
| AdminController.VisibleRows | backend/controllers/adminController.js:49-53 | the listed rows are stored reports the caller may see; every such report is listed, and none more often than stored |
| AdminController.NewestVisible | backend/controllers/adminController.js:49-55 | the visible stored reports in non-increasing `createdAt` order: each listed row is a stored report the caller may see, and every such report is listed |
| AdminController.NewestVisibleCounts | backend/controllers/adminController.js:49-55 | sorting adds no rows: the sorted list is a sub-multiset of the stored rows |
| AdminController.GetReports | backend/controllers/adminController.js:46-64 | without a claim 500; otherwise exactly the visible stored reports, newest first, as a sub-multiset of the stored rows |
| AdminController.SuperAdminSeesAll | backend/controllers/adminController.js:49-53 | a Super Admin's list contains every stored report |
| AdminController.DistrictEmployeeSeesOwnDistrict | backend/controllers/adminController.js:50-51 | every report in a district employee's list is from that district |
| AdminController.GetReportById | backend/controllers/adminController.js:207-219 | the stored report under that id, or 404 exactly when there is none |
| AdminController.UpdateReportStatus | backend/controllers/adminController.js:99-131 | unknown report 404; no claim 500; an employee outside the report's district 403; a status outside the enum 500; each writes nothing; otherwise only that report's status changes and the report stays valid |
| AdminController.ScopedUpdateMatchesVisibility | backend/controllers/adminController.js:112-116 | for a district employee, the update rule and the list filter agree on every report |
| AdminController.ReadAfterStatusUpdate | backend/controllers/adminController.js:207-219 | after a successful status update, fetching that report gives it back with the new status and nothing else changed; every other report fetches as before |
| AdminController.RegisterEmployee | backend/controllers/adminController.js:67-95 | a taken email is 400; an invalid record is 500, each with no write; otherwise the new account is inserted under the next id |
| AdminController.RegisterPreservesInvariants | backend/controllers/adminController.js:71-84 | registration keeps employee emails unique and never stores a district employee without a district |
| AdminController.RegisterThenLogin | backend/schemas/EmployeeSchema.js:40-46 | when the password check accepts the hash of a password, a newly registered account logs in with its own email and password and gets a token for its id, role and district |
| AdminController.GetAllEmployees | backend/controllers/adminController.js:134-146 | every stored account is listed once, in id order, without its password hash |
| AdminController.ViewsListEveryone | backend/controllers/adminController.js:137 | every stored account appears in the listing, as its view without the password hash |
| AdminController.UpdateEmployeeStatus | backend/controllers/adminController.js:149-177 | a non-boolean flag is 400; an unknown id is 404, each with no write; otherwise only that account's active flag changes, with the activated/deactivated message |
| AdminController.StatusChangePreservesInvariants | backend/controllers/adminController.js:158-162 | a status change keeps employee emails unique and districts present |
| AdminController.FindsOwnAccount | backend/controllers/adminController.js:12 | with unique emails, an account's own email finds it |
| AdminController.DeactivatedCannotLogin | backend/controllers/adminController.js:12-15 | after deactivation the account's login is refused with 401 whatever the password |
| AdminController.ReactivationRestoresLogin | backend/controllers/adminController.js:158-162 | deactivating and then reactivating an active account gives it back exactly the login it had |
| Analytics.AddKey | backend/controllers/adminController.js:189-190 | adding a key keeps one bucket per key with positive counts; it adds the key's area and no other |
| Analytics.AddKeyCounts | backend/controllers/adminController.js:189-190 | adding a key raises that key's count by one and leaves every other count |
| Analytics.WellFormedDistinct | backend/controllers/adminController.js:189-190 | in a grouped result no two buckets share a key and every count is at least one |
| Analytics.GroupCount | backend/controllers/adminController.js:189-190 | one bucket per distinct key; each bucket's count is the number of occurrences of its key; the counts sum to the number of keys |
| Analytics.CountOfBucket | backend/controllers/adminController.js:189-190 | in a grouped result, each bucket's count is the count recorded for its key |
| Heatmap.HeatKeysCountArea | backend/controllers/adminController.js:186-197 | a group key occurs exactly as often as there are counted reports in its area |
| Heatmap.HeatKeysLength | backend/controllers/adminController.js:186-197 | there is one group key per counted report |
| Heatmap.GetHeatmap | backend/controllers/adminController.js:181-204 | one bucket per area with at least one counted report (blocks of the district when one is given, otherwise districts); each count is the number of its reports; the counts total the counted reports |
| Heatmap.UnfilteredCountsEverything | backend/controllers/adminController.js:192-196 | without a district, or with an empty one, every stored report is counted |
| Heatmap.HeatmapIgnoresStatus | backend/controllers/adminController.js:186-197 | changing a report's status leaves the heat map as it was |
| AuthorityAdmin.Save | backend/controllers/adminController.js:227-230 | a document is stored exactly when it validates and its location is free; otherwise the reply is 500 with no write |
| AuthorityAdmin.CreateAuthorityAsWritten | backend/controllers/adminController.js:223-232 | the handler as written: a stored contact would have to be valid |
| AuthorityAdmin.AsWrittenNeverCreates | backend/controllers/adminController.js:225-227 | as written, every request answers 500 and stores nothing |
| AuthorityAdmin.CreateAuthority | backend/controllers/adminController.js:223-232 | intended handler: stored exactly when all trimmed fields are non-empty and the location is free; it stores the normalised location and email under the next id and changes nothing else |
| AuthorityAdmin.CreateAuthoritySucceeds | backend/controllers/adminController.js:223-232 | a complete request for a free location succeeds under the intended handler and fails as written |
| AuthorityAdmin.CreateAuthorityExample | backend/controllers/adminController.js:225-227 | the request Ranchi / Namkum / Main Road / ward@gov.in on an empty collection is refused as written and stored as intended |
| AuthorityAdmin.CreatePreservesUniqueLocations | backend/schemas/AuthoritySchema.js:42 | creation never stores two contacts for one location |
| AuthorityAdmin.GetAllAuthorities | backend/controllers/adminController.js:235-242 | every stored contact is listed once |
| AuthorityAdmin.DeleteAuthority | backend/controllers/adminController.js:245-255 | an unknown id is 404 with no write; otherwise that contact is removed and nothing else changes |
| AuthorityAdmin.DeleteFreesLocation | backend/controllers/adminController.js:248 | after deleting the contact at a location, the location is free again |
| CommunityFeed.Toggle | frontend/src/pages/CommunityFeed.jsx:117-121 | the vote flips, the count moves by one in the matching direction, and the count minus the caller's own vote is unchanged |
| CommunityFeed.ToggleUpvote | frontend/src/pages/CommunityFeed.jsx:113-125 | every entry with the id is toggled; every other entry stays as it was, in place |
| CommunityFeed.ToggleTwice | frontend/src/pages/CommunityFeed.jsx:113-125 | toggling the same id twice restores the feed |
| CommunityFeed.TogglesCommute | frontend/src/pages/CommunityFeed.jsx:113-125 | toggles of two ids give the same feed in either order |
| CommunityFeed.ToggleKeepsOthersVotes | frontend/src/pages/CommunityFeed.jsx:119-120 | on every entry, the count minus the caller's own vote is unchanged by a toggle |
| CommunityFeed.SortFeed | frontend/src/pages/CommunityFeed.jsx:97-111 | each sort is a permutation: nearest first, most upvoted first, newest first or oldest first; an unknown order leaves the feed as it is |
| CommunityFeed.NewestReversedIsOldestOrder | frontend/src/pages/CommunityFeed.jsx:104-107 | reversing newest-first gives an oldest-first order over the same entries |
| Sorting.SortDescending | frontend/src/pages/CommunityFeed.jsx:102-105 | the result is a permutation of the input with non-increasing keys |
| Sorting.SortAscending | frontend/src/pages/CommunityFeed.jsx:100-101 | the result is a permutation of the input with non-decreasing keys |
| OtpPage.OtpChange | frontend/src/pages/OtpPage.jsx:41-56 | a value that is not all digits is ignored; otherwise only that cell changes; single-character input keeps the cells valid |
| OtpPage.DigitsOnly | frontend/src/pages/OtpPage.jsx:68 | the result is all digits, at most as long as the text, and keeps each digit's count from the clipboard text |
| OtpPageLaws.DigitsOnlyOne | frontend/src/pages/OtpPage.jsx:68 | a single digit is kept and any other character dropped |
| OtpPageLaws.DigitsOnlyAppend | frontend/src/pages/OtpPage.jsx:68 | the digits of a concatenation are the digits of each part in turn, so the filter keeps the digits in their order |
| OtpPage.DigitsOnlyOfDigits | frontend/src/pages/OtpPage.jsx:68 | an all-digit text passes through unchanged |
| OtpPage.FirstEmptyFrom | frontend/src/pages/OtpPage.jsx:78-79 | the result is the first empty cell from the start index, or the absence of any |
| OtpPage.Overwrite | frontend/src/pages/OtpPage.jsx:69-73 | the first cells take one digit each; the rest are kept |
| OtpPage.Paste | frontend/src/pages/OtpPage.jsx:66-81 | the first min(6, digits) cells take the pasted digits and the rest are kept; focus goes to the first empty cell, or the last |
| OtpPage.PasteKeepsValid | frontend/src/pages/OtpPage.jsx:66-81 | after a paste, cells that held at most one digit each still do |
| OtpPage.CodeLength | frontend/src/pages/OtpPage.jsx:89-91 | cells of at most one character join to full length exactly when none is empty |
| OtpPage.VerifyRequest | frontend/src/pages/OtpPage.jsx:89-95 | a request is made exactly when the joined code has six characters, and it carries that code |
| OtpPage.VerifyIffComplete | frontend/src/pages/OtpPage.jsx:89-95 | on valid cells the request is made exactly when no cell is empty, and it carries six digits |
| OtpPage.PasteThenVerify | frontend/src/pages/OtpPage.jsx:66-95 | pasting text with six or more digits makes the request carry its first six digits |
| OtpPage.PasteRoundTrip | frontend/src/pages/OtpPage.jsx:66-95 | a pasted six-digit code is the code sent |
| OtpPage.ResendRequest | frontend/src/pages/OtpPage.jsx:157-176 | a resend happens exactly when the name and password are present and non-empty; it repeats them with the page's email |
| OtpPageLaws.ResendRenewsChallenge | frontend/src/pages/OtpPage.jsx:157-176 | a resend for an account still waiting for its code adds no account: the same record gets the name and password again with a fresh challenge, and the request succeeds exactly when the mail goes out |
| ReportForm.InputChange | frontend/src/pages/ReportIssuePage.jsx:49-55 | the named field takes the value, and every other field is unchanged |
| ReportForm.LastInputWins | frontend/src/pages/ReportIssuePage.jsx:49-55 | two edits of one field leave only the last |
| ReportForm.InputsCommute | frontend/src/pages/ReportIssuePage.jsx:49-55 | edits of different fields commute |
| ReportForm.DistrictChange | frontend/src/pages/ReportIssuePage.jsx:58-65 | the district takes the value, the block is cleared, and nothing else changes |
| ReportForm.DistrictChangeBlocksSubmit | frontend/src/pages/ReportIssuePage.jsx:58-65 | right after a district change the form cannot be submitted |
| ReportForm.FileSelect | frontend/src/pages/ReportIssuePage.jsx:68-77 | only a file whose type starts with "image/" replaces the photo; anything else leaves the form unchanged |
| ReportForm.FileSelectKeepsImage | frontend/src/pages/ReportIssuePage.jsx:69-73 | if the photo is an image, it stays an image after any selection |
| ReportForm.SubmitPlan | frontend/src/pages/ReportIssuePage.jsx:112-160 | an incomplete form is stopped; a complete one without a token goes to sign-in; otherwise the request carries the form's fields and a bearer header |
| ReportForm.SentHeaderCarriesToken | frontend/src/pages/ReportIssuePage.jsx:155-158 | the header the page sends is one the citizen gate parses back to the same token |
| ReportForm.EmptyFormIncomplete | frontend/src/pages/ReportIssuePage.jsx:36-44 | the initial form cannot be submitted |
| ReportForm.DistrictOptions | frontend/src/pages/ReportIssuePage.jsx:343-345 | the offered districts are exactly the table's non-empty keys |
| ReportForm.BlockOptions | frontend/src/pages/ReportIssuePage.jsx:363-365 | no district offers no blocks; a known district offers its table row; an unknown district has none |
| ReportForm.DistrictKeysDistinct | frontend/src/pages/ReportIssuePage.jsx:5-31 | the district table has no repeated key |
| ReportForm.OfferedDistrictsHaveBlocks | frontend/src/pages/ReportIssuePage.jsx:5-31 | every offered district has four non-empty blocks |
| Common.Split | backend/middleware/authMiddleware.js:16 | the pieces contain no separator and join back to the input |
| Common.SplitJoin | backend/middleware/authMiddleware.js:16 | joining separator-free pieces and splitting again gives the pieces back |
| Common.TrimSpec | backend/schemas/AuthoritySchema.js:5-21 | a trimmed string has no space at either end, and trimming gives the empty string exactly when the input is all space |
| Common.TrimIdempotent | backend/schemas/AuthoritySchema.js:5-21 | trimming twice is trimming once |
| Common.LowerIsLowerAndIdempotent | backend/schemas/UserSchema.js:5-10 | lower-casing yields lower-case text, and applying it twice is applying it once |
| Common.Utf16LengthCounts | backend/schemas/ReportSchema.js:14 | a string's JavaScript length is its number of characters plus one for each character outside the Basic Multilingual Plane |
| Common.AllAstralDoubles | backend/schemas/ReportSchema.js:14 | a text of characters outside the Basic Multilingual Plane has twice as many code units as characters |

## Left out

- Databases, HTTP, mail delivery, Cloudinary uploads, the AI service, the server entry point and the route files other than the admin guards: these are I/O. The collections are values, the mail outcome is a boolean, and the route guards are functions.
- bcrypt and JWT: hashing and signature checking are function parameters (`Crypto`, `Verifier`), so no cryptographic property is modelled. Token expiry is part of what `Verifier` decides.
- The clock and the code generator's randomness are parameters (`now`, `dayStart`, `seed`). The date shift to local midnight is the caller's `dayStart`.
- Concurrency: two requests interleaving between a lookup and a save are not modelled. The handlers are atomic functions.
- A save that fails after the report is stored but before the ledger entry is written (two separate saves in the source) is not modelled. Submission either does both or neither.
- `populate('submittedBy', 'name email')` and the response field selections are left out. Replies carry the stored records.
- Malformed ids, which Mongoose rejects with a cast error (500), are left out. Ids are naturals, and an unknown id is simply absent.
- `updateReportStatus` with no `status` in the body is left out. The model takes a status string and fails with 500 when it is outside the enum.
- Common.Lower: lower-cases ASCII letters only. JavaScript `toLowerCase` covers all of Unicode.
- Common.Trim: strips ASCII space, tab, newline, carriage return, vertical tab and form feed. JavaScript `trim` strips more Unicode white space.
- CommunityFeed.SortFeed: distances and dates are integers. The feed's distance is a float, and `new Date` differences are milliseconds.
- CommunityFeed.SortFeed: the order among items with equal keys is not stated. `Array.prototype.sort` is stable, and so is the insertion sort in `Sorting.SortDescending` (an element goes in front of later equal ones), but no contract says so.
- AuthorityAdmin.GetAllAuthorities: the ordering by district is not stated. The contract lists every contact once.
- AdminController.GetReports: ties in `createdAt` may come out in any order. The contract states only the non-increasing order.
- The OTP page's timers, focus moves on typing and backspace, and the cell reset after a successful resend are left out. These are UI effects.
- The sign-in and sign-up pages, the header and the home page are left out. They only forward form fields to the modelled endpoints.
- The citizen schema declares only `email`, `password` and `reports`, with a ledger date field named `date`. The controllers read and write `name`, `isVerified`, `otp`, `otpExpires` and a ledger field `submittedAt`, and rely on a password-hashing hook the schema does not have. The model follows the controllers: an account has a name, a verification state (pending with code hash and expiry, or verified) and one ledger timestamp. The password is hashed on every save that sets it.
- The report controller loads `../models/Report` and `../models/User`. Those files are not part of this model. It passes `description` and `photo`, while the report schema requires `title`, `content` and `photoUrl`. The model takes the schema's fields, so an input the schema rejects fails with 500 and writes nothing.
- A duplicate location when creating an authority is answered with 500 by the code (the unique index error reaches the catch block), and the model follows the code rather than a conflict status.

## Findings

| source | as written | input that shows it | evidently intended | confidence | as-written member | corrected member |
|---|---|---|---|---|---|---|
| backend/controllers/adminController.js:226 | the new document is built with the key `officialEmail`. The schema has no such path, so strict mode drops it, the required `email` is never set, and validation fails. Every request answers 500 "Server error creating authority." and nothing is stored | any complete request, e.g. district Ranchi, block Namkum, locality Main Road, officialEmail ward@gov.in on an empty collection | `email: officialEmail`, so that a complete request for a free location is stored | not executed; high | AuthorityAdmin.CreateAuthorityAsWritten (AsWrittenNeverCreates, CreateAuthorityExample) | AuthorityAdmin.CreateAuthority (CreateAuthoritySucceeds, CreatePreservesUniqueLocations) |
