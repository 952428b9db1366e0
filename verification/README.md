# LifeFlow domain rules in Dafny

LifeFlow is a blood-donor matching web application. Almost all of it is user
interface and calls to a hosted database and authentication service. This
project models the few pure rules inside its React components and proves
properties about them:

- **Blood compatibility checker** (`blood_groups.dfy`, module `BloodGroups`).
  It covers the eight ABO/Rh blood types and the two hand-written lookup
  tables: "can receive from" (`compatibilityMatrix`) and "can donate to"
  (`donorCompatibility`). It also covers the per-type metadata lookup with
  its "Unknown" fallback, and the `checkCompatibility` query step. The
  tables are kept as lists in the component's order, since the announced
  donor count is a list length. Each table also has a set view. Both tables
  are proved to match, for all 64 ordered pairs, the standard ABO/Rh rule.
  ABO says the donor is O, or the same group, or the recipient is AB. Rh
  says a negative recipient takes only negative blood; the component's
  explanatory text states this Rh part, together with the universal donor
  and recipient.
  Proved consequences: the tables are inverses, both are reflexive, O- is
  the universal donor, AB+ is the universal recipient, and the Rh rule holds.
- **Sign-in / sign-up page** (`auth_form.dfy`, module `AuthForm`). Covers
  the first-failure validator in both modes and what a submit does to the
  page for each service reply. A successful sign-up switches to login mode
  and keeps only the email. Also covers the mode switch and the empty-email
  guard of the password-reset link.
- **Donor profile page** (`donor_profile.dfy`, module `DonorProfiles`).
  Covers the 30-day cooldown in whole days, the required-field check and the
  insert-or-update decision on save, the state change when a donation is
  recorded, single-field edits, the availability switch lock and when the
  "Record Donation" button appears. "Now" is a parameter. Instants are
  integer milliseconds.
- **Hospital autocomplete** (`hospital_search.dfy`, module `HospitalSearch`;
  `text.dfy`, module `Text`). Covers the fixed catalogue of 15 hospitals,
  ASCII lower-casing, substring search, and the filter that runs on each
  change of the search term. That filter needs at least two characters.
  Also covers the state machine of term, results, drop-down and selected
  hospital, driven by typing, picking, key presses, focus and outside
  clicks. `Step` is the component as written. `StepCorrected` differs only
  in picking a hospital, where it uses the corrected selection from
  "## Findings".

`wrappers.dfy` (module `Wrappers`) holds the `Option` type used for absent
values. `sequences.dfy` (module `Sequences`) holds the facts about
duplicate-free lists that the tables and the hospital filter share.

An unknown blood-type code is not rejected. The component answers it with
the "Unknown" record and empty lists, and `BloodGroups.BloodTypeInfo` and
`BloodGroups.CheckCompatibility` model that fallback.

## Model

| member | source | states |
|---|---|---|
| `BloodGroups.Parse` | src/components/BloodCompatibilityChecker.tsx:15 | a key is recognised only when it is the code of a blood type, and then it is that type's code; any other key is unknown |
| `BloodGroups.ParseCode` | src/components/BloodCompatibilityChecker.tsx:15 | each of the eight codes reads back as its own type |
| `BloodGroups.ReceiveTableMatchesRule` | src/components/BloodCompatibilityChecker.tsx:18-27 | a donor is listed for a recipient exactly when the ABO and Rh rules both allow it, and no row repeats a type |
| `BloodGroups.DonateTableMatchesRule` | src/components/BloodCompatibilityChecker.tsx:29-38 | a recipient is listed for a donor exactly when the ABO and Rh rules both allow it, and no row repeats a type |
| `BloodGroups.TablesAreInverse` | src/components/BloodCompatibilityChecker.tsx:18-38 | Y can give to X according to the first table exactly when X can receive from Y according to the second |
| `BloodGroups.Reflexive` | src/components/BloodCompatibilityChecker.tsx:19-37 | every type can receive from and donate to itself |
| `BloodGroups.UniversalDonor` | src/components/BloodCompatibilityChecker.tsx:262 | O- is a donor for every type and can give to all eight, but receives only from O- |
| `BloodGroups.UniversalRecipient` | src/components/BloodCompatibilityChecker.tsx:265 | AB+ receives from all eight types, but gives only to AB+ |
| `BloodGroups.RhRule` | src/components/BloodCompatibilityChecker.tsx:268 | an Rh-negative recipient only receives Rh-negative blood; an Rh-positive recipient receives either factor from an ABO-compatible group |
| `BloodGroups.BloodTypeInfo` | src/components/BloodCompatibilityChecker.tsx:40-52 | an unrecognised key gets the "Unknown" record with no special tag; a known type gets its own row of the table (frequency, category and tag); only O- and AB+ carry a special tag |
| `BloodGroups.InfoTableConsistent` | src/components/BloodCompatibilityChecker.tsx:41-50 | the eight frequencies add up to 100%, and a more frequent type never has a rarer category label |
| `BloodGroups.CheckCompatibility` | src/components/BloodCompatibilityChecker.tsx:54-80 | an empty selection gives no result; otherwise the donor and recipient lists contain exactly the rule-compatible types, the announced count equals the number of distinct compatible donors, the shown "can donate to" count equals the number of distinct compatible recipients, and an unknown key gives empty lists |
| `Text.LowerChar` | src/components/HospitalSearch.tsx:136-137 | an ASCII capital becomes its lower-case letter and any other character is unchanged, so the result is never a capital |
| `Text.Lower` | src/components/HospitalSearch.tsx:136-137 | lower-casing keeps the length and lower-cases each position |
| `Text.Includes` | src/components/HospitalSearch.tsx:136-137 | `includes` answers true exactly when the needle occurs at some offset of the text |
| `HospitalSearch.Filter` | src/components/HospitalSearch.tsx:135-138 | the result holds exactly the entries whose lower-cased name or address contains the lower-cased term, and it is no longer than the input |
| `HospitalSearch.FilterIsSubsequence` | src/components/HospitalSearch.tsx:135 | the filtered list keeps the catalogue order |
| `HospitalSearch.FilterNoDuplicates` | src/components/HospitalSearch.tsx:135 | filtering a duplicate-free list gives a duplicate-free list |
| `HospitalSearch.CatalogueDistinct` | src/components/HospitalSearch.tsx:39-130 | the catalogue's ids are distinct, so it has no repeated entry |
| `HospitalSearch.FilterCaseInsensitive` | src/components/HospitalSearch.tsx:136-137 | two terms that differ only in ASCII letter case give the same result list |
| `HospitalSearch.ResultsFor` | src/components/HospitalSearch.tsx:134-144 | a term shorter than two characters gives no results; a longer one gives exactly the matching catalogue entries |
| `HospitalSearch.FilterEffect` | src/components/HospitalSearch.tsx:133-145 | the effect leaves the term and selection alone, shows the drop-down exactly for terms of two or more characters, and lists exactly the matching catalogue entries |
| `HospitalSearch.OnInput` | src/components/HospitalSearch.tsx:161-169 | typing sets the term; a selection survives exactly when its lower-cased name still contains the lower-cased value; a changed term re-runs the filter, while an unchanged term leaves the results and the drop-down as they were |
| `HospitalSearch.SelectAsWritten` | src/components/HospitalSearch.tsx:171-179 | as written, selecting sets the selection and makes the term the hospital's name. The drop-down ends up open exactly when that name differs from the old term and has at least two characters. The results follow the new name when it differs from the old term and are otherwise unchanged |
| `HospitalSearch.SelectAsWrittenReopens` | src/components/HospitalSearch.tsx:171-174 | as written, picking a catalogue hospital whose name differs from the term leaves the drop-down open and listing that hospital |
| `HospitalSearch.SelectAsWrittenExample` | src/components/HospitalSearch.tsx:171-174 | as written, typing "sa" and then picking Safdarjung Hospital leaves a non-empty list showing |
| `HospitalSearch.Select` | src/components/HospitalSearch.tsx:171-174 | the corrected selection from "## Findings", not the component's behaviour: it sets the selection and makes the term the hospital's name; the results follow the new term and the drop-down stays closed |
| `HospitalSearch.RetypeNameKeepsSelection` | src/components/HospitalSearch.tsx:166-173 | after a hospital is selected, typing its name again keeps it selected, both in the component as written and with the corrected selection |
| `HospitalSearch.ClearingFieldKeepsSelection` | src/components/HospitalSearch.tsx:166-168 | emptying the field keeps the selection, because every name contains the empty string; in a consistent state the drop-down is then hidden |
| `HospitalSearch.OnKeyDown` | src/components/HospitalSearch.tsx:181-186 | Escape closes the drop-down and changes neither the term, the results nor the selection; any other key changes nothing |
| `HospitalSearch.OnFocus` | src/components/HospitalSearch.tsx:204 | focusing opens the drop-down only when the term has at least two characters, and changes nothing else |
| `HospitalSearch.OnClickOutside` | src/components/HospitalSearch.tsx:148-153 | a press outside the component closes the drop-down and changes nothing else |
| `HospitalSearch.InitialConsistent` | src/components/HospitalSearch.tsx:30-33 | the initial state, with an empty term, no results, a hidden drop-down and nothing selected, satisfies the invariant |
| `HospitalSearch.StepPreservesConsistent` | src/components/HospitalSearch.tsx:133-186 | after every event the results match the term, and the drop-down is never open for a term under two characters. This holds for the component as written (`Step`, selection as written) and for the corrected selection (`StepCorrected`) |
| `HospitalSearch.Visible` | src/components/HospitalSearch.tsx:213-244 | the list is drawn exactly when the drop-down is open and the results are non-empty. The "no hospitals found" message appears exactly when it is open, the term has at least two characters and there are no results. A closed drop-down draws nothing |
| `HospitalSearch.SelectHidesDropdown` | src/components/HospitalSearch.tsx:171-174 | for the corrected selection from "## Findings" (the component as written reopens the list): after a pick nothing is drawn below the field, and Escape keeps it that way |
| `AuthForm.ValidateForm` | src/pages/Auth.tsx:52-92 | a form passes exactly when email and password are present and, at sign-up, the sign-up checks pass; each error is reported exactly when every earlier check passed and its own check fails, in the order credentials, mismatch, profile fields, length |
| `AuthForm.ValidationIgnores` | src/pages/Auth.tsx:72-79 | address, city and state never change the verdict, and login mode looks only at email and password |
| `AuthForm.SignupStricterThanLogin` | src/pages/Auth.tsx:53-91 | a form valid for sign-up is valid for login, and a login failure is also the sign-up failure |
| `AuthForm.PasswordLengthBoundary` | src/pages/Auth.tsx:81-88 | at sign-up a five-character password is refused as too short and a six-character one passes |
| `AuthForm.Submit` | src/pages/Auth.tsx:94-161 | a submit is rejected exactly when the form is invalid, with the validator's error and nothing sent; a valid form the service refuses shows the service's message, or "An error occurred during authentication" when that message is empty, and the page is unchanged; login succeeds only for a valid form the service accepts; a successful sign-up switches to login mode with only the email kept; every other outcome leaves the page unchanged |
| `AuthForm.RegisteredNeedsPassword` | src/pages/Auth.tsx:138-149 | after registering, the cleared login form fails for missing credentials until the password is typed again, and then it passes |
| `AuthForm.ToggleMode` | src/pages/Auth.tsx:373 | the mode link switches mode and keeps every field |
| `AuthForm.PasswordResetAllowed` | src/pages/Auth.tsx:163-171 | a reset email is requested exactly when an email is entered, so any form that could sign in can request one |
| `DonorProfiles.DaysSince` | src/components/DonorProfile.tsx:237 | the whole days since the last donation are the floor of the elapsed milliseconds over 86,400,000 |
| `DonorProfiles.DaysUntilAvailable` | src/components/DonorProfile.tsx:233-239 | the wait is 0 with no donation date, never negative, at most 30 once the date is in the past, 0 exactly when 30 days have elapsed, and otherwise 30 minus the days elapsed |
| `DonorProfiles.DaysUntilAvailableMonotone` | src/components/DonorProfile.tsx:236-238 | the wait never grows as time passes |
| `DonorProfiles.CooldownBoundaries` | src/components/DonorProfile.tsx:233-239 | the wait is 30 days at the moment of donation, still 1 a millisecond before 30 days, and 0 at exactly 30 days |
| `DonorProfiles.SaveDecisionFor` | src/components/DonorProfile.tsx:137-179 | no user means no save; a missing name, blood group or phone refuses the save; otherwise the row is updated if it exists and inserted if not, carrying the page's fields and availability |
| `DonorProfiles.OptionalFieldsDoNotBlockSave` | src/components/DonorProfile.tsx:140-147 | address, city and state never decide whether the required-field check fails |
| `DonorProfiles.ProfileExistsAfterSave` | src/components/DonorProfile.tsx:165-179 | the page knows a row exists once it did before or an insert succeeded; a failed write changes nothing |
| `DonorProfiles.SaveEstablishesProfile` | src/components/DonorProfile.tsx:137-179 | a save by a signed-in user with the required fields, once written, leaves the page knowing the row exists, whether it was an update or an insert; a refused save or a failed write leaves that knowledge unchanged |
| `DonorProfiles.RecordDonation` | src/components/DonorProfile.tsx:198-216 | without a user, without a row, or when the write fails, nothing changes; otherwise the donor becomes unavailable with the donation dated now; no other field ever changes |
| `DonorProfiles.ApplyEdit` | src/components/DonorProfile.tsx:98-103 | an edit sets exactly the named field and leaves every other field as it was |
| `DonorProfiles.ToggleAvailability` | src/components/DonorProfile.tsx:286-290 | the availability switch does nothing while days remain, and otherwise sets availability to the new value |
| `DonorProfiles.RecordButtonOffered` | src/components/DonorProfile.tsx:419-428 | when the "Record Donation" button is offered, a successful recording changes the profile and the button is no longer offered |
| `DonorProfiles.DonationStartsCooldown` | src/components/DonorProfile.tsx:280-290 | after a recorded donation the "Record Donation" button is gone; the switch stays locked for 30 days and works from then on |

## Left out

- Every call to the hosted backend is left out: sign-in, sign-up, password reset, the donor insert, update and select, and the realtime channel. The service's answer is a parameter (`ServiceReply`, `writeSucceeded`).
- Loading the profile (src/components/DonorProfile.tsx:55-96) is left out. It is a backend select plus a copy of the user's metadata.
- Geolocation, map links and the floating-point coordinates of profiles and hospitals are left out. They are browser services and float arithmetic.
- Toasts, JSX rendering, CSS classes and the `loading` flags are left out. They change no modelled state.
- Reading the clock and parsing ISO date strings are left out. Instants are integer milliseconds, and a recorded donation is stamped with the `now` passed in. An unparseable date string would make the JavaScript wait `NaN`; that case is not modelled.
- The user-id check in `recordDonation` only tests whether a user is signed in. The id only selects the row the service updates, so it is not modelled.
- `AuthForm.ValidateForm`: lengths count Unicode scalar values, but JavaScript's `length` counts UTF-16 code units. The two differ only for characters outside the Basic Multilingual Plane.
- HospitalSearch.ResultsFor, HospitalSearch.FilterEffect, HospitalSearch.OnFocus, HospitalSearch.OnInput, HospitalSearch.Visible: the two-character minimum counts Unicode scalar values, but JavaScript's `length` counts UTF-16 code units. A single character outside the Basic Multilingual Plane, such as an emoji, already reaches the minimum in the component, so there the filter runs and "No hospitals found" is shown. In the model it stays below the minimum.
- `Text.Lower`: lower-cases ASCII letters only. JavaScript's `toLowerCase` also folds other Unicode letters.
- BloodGroups.BloodTypeInfo, BloodGroups.CheckCompatibility: model the lookups over the tables' own keys only. In JavaScript, an inherited property name such as `toString` returns a function, not the "Unknown" record or an empty list. The drop-down never produces such a key.
- `HospitalSearch.SelectAsWritten`: the `onHospitalSelect` callback to the parent form is not modelled. It only passes the hospital on.
- Donor search, blood search, emergency requests, donor registration and the home page are left out. They are backend queries, mock data and form plumbing. The donor search's whole-days-since-last-donation arithmetic repeats `DonorProfiles.DaysSince`.
- The Auth page's own field setter is left out. It is the same one-field update as `DonorProfiles.ApplyEdit`.

## Findings

| source | as written | input that shows it | evidently intended | confidence | as-written member | corrected member |
|---|---|---|---|---|---|---|
| src/components/HospitalSearch.tsx:171-174 | `handleHospitalSelect` hides the drop-down but also sets the search term. The filtering effect at lines 133-145 is keyed on the term, so it runs after the handler and shows the drop-down again. | type "sa", then click "Safdarjung Hospital" | picking a hospital closes the list | medium; not executed | `HospitalSearch.SelectAsWrittenReopens` | `HospitalSearch.Select` |
