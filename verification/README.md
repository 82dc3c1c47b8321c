# contact-flow, modelled in Dafny

contact-flow is a React application for collecting contacts. An organiser creates a time-limited
**session** and shares its link. Visitors submit a name, a phone number and an optional email and
company through a **contact form**. A session can have a password. When it expires, the form refuses
new submissions. The organiser exports the collected contacts as a vCard or CSV file.

The repository has several iterations of the same application:

- a browser-storage variant (`ContactForm.jsx`, `SessionCreator.jsx`, `SessionDashboard.jsx`);
- a database-backed hook (`useContactForm.js`);
- a routed, database-backed form split into a page and two sub-forms (`ContactForm/`);
- the signed-in user's session list (`UserDashboard.jsx`);
- a shared list of global contacts, with a hand-entry form (`GlobalContactsManager.jsx`) and a
  seeding loop that runs at start-up (`main.jsx`).

This project models the decision logic of those files as pure Dafny functions and proves what they
promise. That logic covers:

- expiry tests and the hours/minutes/seconds countdown;
- password gates and the cached unlock;
- the ordered guards of every form;
- how records are built and store errors are mapped;
- the duplicate rule of the storage variant;
- the two exporters, the dashboard sort, the delete filter and the seeding merge.

The environment is abstracted as follows:

- **Clock.** Timestamps are integer milliseconds. The current time is a parameter `now`. Session
  creation reads the clock twice, so it takes both readings as parameters.
- **Phone validator.** `isValidPhoneNumber` is a parameter `validPhone: string -> bool`.
- **Database.** Each database call is given its answer as a parameter:
  - `StoreResult = Ok | Err(code, message)`, where code `23505` means a unique-constraint
    violation;
  - `Fetched` for loading a session row;
  - `Listing` for the session list;
  - per-entry `Fault`s for seeding.
  The global table itself is a sequence of rows.
- **Browser storage.**
  - The `session_auth_<id>` password cache is a `map<string, string>`.
  - A stored session is an `Option<LocalSession>`.
- **Nullable strings.** Database columns and JSON members that may be null are `Option<string>`.
  They are truthy exactly when they are non-null and non-empty.
- **Trimming.** `trim` removes the ECMAScript WhiteSpace and LineTerminator characters.

Modules:

| module | file | models |
|---|---|---|
| `Common` | common.dfy | truthiness, `trim`, the prefix rule, the auth cache key, insert-error mapping, the field guards |
| `Records` | records.dfy | the stored records |
| `Countdown` | countdown.dfy | the three expiry tests and the h/m/s split |
| `SessionCreator` | session_creator.dfy | `SessionCreator.jsx` |
| `LocalContactForm` | local_form.dfy | `ContactForm.jsx` (storage variant) |
| `ContactFormHook` | hook_form.dfy | `useContactForm.js` |
| `ContactFormFields`, `ContactFormPassword`, `RoutedContactForm` | contact_form_fields.dfy, contact_form_password.dfy, routed_form.dfy | `ContactForm/` |
| `SessionDashboard`, `VcfExport`, `CsvExport` | session_dashboard.dfy, vcf_export.dfy, csv_export.dfy | `SessionDashboard.jsx` |
| `UserDashboard` | user_dashboard.dfy | `UserDashboard.jsx` |
| `GlobalContacts` | global_contacts.dfy | `GlobalContactsManager.jsx` |
| `Seeding` | seed.dfy | `setupGlobalContacts` in `main.jsx` |

Some behaviour of the code is worth stating outright, because a reader might expect otherwise:

- The vCard `EMAIL` line is written for every contact, even when the email is empty.
- The CSV columns are `Name,Email,Phone,Company`, in that order. There is no submission-time
  column.
- Submitted names are not trimmed before the prefix is added. Only the global contacts form
  trims the name.
- Optional fields are normalised in three different ways:
  - kept as typed (storage variant);
  - `|| null` (routed form, seeding);
  - trimmed, then `|| null` (hook, global form).
- New sessions do not receive copies of the global contacts. No code path does this.

## Model

| member | source | states |
|---|---|---|
| Common.OrNull | src/components/ContactForm/ContactForm.jsx:96-97 | the "or null" of a string is null exactly for "", else the string itself |
| Common.FalsyToNull | src/main.jsx:59-60 | the "or null" of a nullable string is null exactly when it is falsy, else the value itself |
| Common.Trim | src/components/SessionCreator.jsx:41-43 | the trimmed string is a contiguous piece of the input with only whitespace before and after it, and it neither starts nor ends with whitespace |
| Common.TrimEmptyIffBlank | src/components/ContactForm.jsx:98 | `!s.trim()` holds exactly when `s` is all whitespace (both directions) |
| Common.TrimOrNull | src/hooks/useContactForm.js:141-142 | the trimmed-or-null value is null exactly for blank input, else the non-empty trimmed string |
| Common.PrefixedName | src/components/ContactForm.jsx:154-156 | the stored name is the prefix's text followed by the untrimmed name; the name is its suffix |
| Common.AuthKeyInjective | src/hooks/useContactForm.js:94 | two session ids never share a `session_auth_` cache key |
| Common.RemoveItem | src/hooks/useContactForm.js:67 | `removeItem` deletes that key and leaves every other key and value as it was |
| Common.ClassifyInsert | src/hooks/useContactForm.js:150-155 | success, a 23505 duplicate, or a failure carrying the store's message, each exactly in its case |
| Common.FieldRejection | src/components/ContactForm.jsx:98-114 | missing name/phone first, then an invalid phone, with each condition stated both ways |
| Common.SubmitRejection | src/components/ContactForm.jsx:98-132 | the guard order is fields, expired, locked; nothing is refused exactly when all four pass |
| Countdown.Split | src/components/SessionDashboard.jsx:27-31 | for `remaining > 0`, minutes and seconds lie in 0..59 and `h*3600000+m*60000+s*1000 <= remaining < that+1000` |
| Countdown.SplitUnique | src/components/SessionDashboard.jsx:27-31 | any triple meeting those bounds is the one computed: the split is the unique reading of `remaining` |
| Countdown.Tick | src/components/SessionDashboard.jsx:16-31 | the label is "Expired" exactly when `now >= expiresAt`, else a valid h/m/s split of the remaining time |
| Countdown.ExpiryMonotone | src/components/SessionDashboard.jsx:16-19 | all three expiry tests, once true, stay true for every later `now` |
| Countdown.LoadAndTickDisagreeOnlyAtExpiry | src/components/ContactForm.jsx:33-53 | the strict load-time test and the `<= 0` tick differ exactly when `now == expiresAt` |
| Countdown.OneMinuteSession | src/components/SessionDashboard.jsx:16-31 | a one-minute session shows 0h 0m 59s after 1 ms and 0h 0m 0s with 1 ms left, and is expired at 60000 ms |
| SessionCreator.UnitMs | src/components/SessionCreator.jsx:32 | "minutes" selects 60000 ms, every other unit 3600000 ms |
| SessionCreator.Create | src/components/SessionCreator.jsx:20-45 | refused exactly for a blank name or a blank duration; otherwise prefix, link and password are trimmed, the name is kept, contacts are empty, and the timestamps come from the two clock reads |
| SessionCreator.LastsAtLeastItsDuration | src/components/SessionCreator.jsx:39-40 | with a clock that does not run backwards, `expiresAt - createdAt >= duration` |
| SessionCreator.NonPositiveDurationIsExpiredAtOnce | src/components/SessionCreator.jsx:21-32 | a zero or negative duration is accepted and the session is already expired by the tick |
| SessionCreator.DurationUnits | src/components/SessionCreator.jsx:32 | n minutes expire n*60000 ms after the clock read, n hours n*3600000 ms after |
| LocalContactForm.Load | src/components/ContactForm.jsx:27-44 | expired iff `now > expiresAt`; locked iff the password is non-empty; authenticated at once iff it is empty |
| LocalContactForm.Tick | src/components/ContactForm.jsx:46-69 | the flag turns true once `expiresAt - now <= 0` and never back; nothing else changes |
| LocalContactForm.SubmitPassword | src/components/ContactForm.jsx:78-93 | unlocks exactly on an exact match with the session password; nothing else changes |
| LocalContactForm.NewContact | src/components/ContactForm.jsx:154-163 | the appended contact has the prefixed name, the phone, email and company as typed, and the submission time |
| LocalContactForm.Submit | src/components/ContactForm.jsx:95-177 | guards in order; a duplicate exactly when the stored list has the phone; acceptance appends exactly one contact and resets the form; a refusal changes nothing |
| LocalContactForm.SubmitKeepsPhonesDistinct | src/components/ContactForm.jsx:136-164 | pairwise-distinct phones stay pairwise distinct after any submission |
| LocalContactForm.SubmitOnlyAppends | src/components/ContactForm.jsx:158-164 | the old list is a prefix of the new one, which is at most one longer; the session's other fields are untouched |
| LocalContactForm.SubmitTwiceStoresOnce | src/components/ContactForm.jsx:141-152 | a new phone that passes every guard is added; submitting it again is reported as an existing contact and stores nothing |
| LocalContactForm.BlankPasswordIsNoPassword | src/components/SessionCreator.jsx:43 | a whitespace-only password is trimmed away, so the created session loads unlocked |
| LocalContactForm.LoadedAtExpiryThenTickExpires | src/components/ContactForm.jsx:33-54 | a session loaded exactly at `expiresAt` is open, and its first tick expires it |
| ContactFormHook.Fetch | src/hooks/useContactForm.js:22-50 | no session without an id or row; expired iff `expires_at < now`; locked iff the password is truthy; unlocked iff it is falsy or the cache holds exactly that password |
| ContactFormHook.Tick | src/hooks/useContactForm.js:56-81 | expires once `expiry - now <= 0`, and then removes this id's cache key whether or not there is a password; other keys are kept |
| ContactFormHook.SubmitPassword | src/hooks/useContactForm.js:90-106 | an exact match unlocks and caches exactly the entered text; a mismatch changes neither state nor cache |
| ContactFormHook.BuildRecord | src/hooks/useContactForm.js:133-144 | the prefixed name, the phone as entered, email/company trimmed or null for blank input, the session id and the time |
| ContactFormHook.Settle | src/hooks/useContactForm.js:146-162 | 23505 reports an existing contact, other errors pass their message through, and only success marks the form submitted and clears it |
| ContactFormHook.Submit | src/hooks/useContactForm.js:108-163 | the four guards in order, all before any insert; a record is sent exactly when every guard passes on a loaded session |
| ContactFormHook.AcceptedSubmitInsertsRecord | src/hooks/useContactForm.js:131-146 | once the guards pass, the outcome is decided by the store's answer to the built record alone |
| ContactFormHook.UnlockSurvivesReload | src/hooks/useContactForm.js:41-49 | after a successful unlock, fetching the row again with the updated cache starts unlocked |
| ContactFormHook.WrongPasswordStaysLocked | src/hooks/useContactForm.js:90-106 | a wrong password writes nothing, and a reload is still locked |
| ContactFormHook.ExpiryRevokesCachedUnlock | src/hooks/useContactForm.js:64-68 | once the tick has expired a password session, a reload finds it locked again |
| ContactFormFields.HandleSubmit | src/components/ContactForm/ContactFormFields.jsx:18-44 | name/phone, then phone validity, then expiry; the data is handed on unchanged exactly when all three pass |
| ContactFormPassword.HandleSubmit | src/components/ContactForm/ContactFormPassword.jsx:11-26 | access is granted iff the entered text equals the password; the entered text is kept either way |
| ContactFormPassword.ComparisonIsExact | src/components/ContactForm/ContactFormPassword.jsx:13 | case and leading spaces make a password differ |
| RoutedContactForm.Load | src/components/ContactForm/ContactForm.jsx:25-55 | loading ends; no session for a missing id, a fetch error or no row; locked iff the password is truthy |
| RoutedContactForm.Tick | src/components/ContactForm/ContactForm.jsx:61-78 | once loaded, expiry is re-derived as `isPast(expires_at)` on each tick |
| RoutedContactForm.ViewOf | src/components/ContactForm/ContactForm.jsx:130-192 | precedence is loading, invalid session, success, password gate, fields; each screen is characterised both ways |
| RoutedContactForm.NoSessionShowsInvalid | src/components/ContactForm/ContactForm.jsx:26-45 | a missing id or a failed or empty fetch shows the invalid-session screen and is never marked expired |
| RoutedContactForm.SubmitPassword | src/components/ContactForm/ContactForm.jsx:181-185 | the password sub-form unlocks the page exactly on an exact match |
| RoutedContactForm.AttemptsUnlockIffOneMatches | src/components/ContactForm/ContactFormPassword.jsx:11-26 | with no attempt counter, a run of attempts unlocks iff one of them is the password |
| RoutedContactForm.BuildRecord | src/components/ContactForm/ContactForm.jsx:88-99 | the prefixed name, the phone, and email/company untrimmed with "" becoming null |
| RoutedContactForm.HandleContactSubmit | src/components/ContactForm/ContactForm.jsx:85-128 | 23505 means an existing contact; other errors show their message or a fixed text; only success sets submitted |
| RoutedContactForm.Submit | src/components/ContactForm/ContactFormFields.jsx:18-47 | refused exactly when a field guard fails; otherwise the page's insert runs and the fields clear even after a store error |
| RoutedContactForm.SuccessScreenOnlyAfterInsert | src/components/ContactForm/ContactForm.jsx:101-148 | the success screen follows exactly a stored contact; every other outcome stays on the fields |
| RoutedContactForm.ExpiryIsRederived | src/components/ContactForm/ContactForm.jsx:61-71 | a session found expired shows as open again on a tick with an earlier clock |
| SessionDashboard.Tick | src/components/SessionDashboard.jsx:14-32 | the label is the countdown; expiry is sticky; at expiry the cache key is removed only for a non-empty password |
| SessionDashboard.ExpiryClearsOnlyThisSessionsCache | src/components/SessionDashboard.jsx:18-23 | an expired tick removes this session's key and no other, and leaves a password-less session's cache whole |
| SessionDashboard.Refresh | src/components/SessionDashboard.jsx:39-51 | the list is re-read from storage and kept when the session is gone |
| SessionDashboard.DownloadVcf | src/components/SessionDashboard.jsx:62-95 | refused exactly for an empty list; otherwise `<name>_contacts.vcf`, whose cards decode to the contacts whenever no field holds a line break |
| SessionDashboard.DownloadCsv | src/components/SessionDashboard.jsx:97-130 | refused exactly for an empty list; otherwise `<name>_contacts.csv`, whose records decode to the contacts' columns |
| SessionDashboard.EnabledButtonsMayRefuse | src/components/SessionDashboard.jsx:237-246 | the buttons are disabled only for an empty list of an open session; enabled for an expired empty session they still refuse; with contacts they always download |
| SessionDashboard.RecentFive | src/components/SessionDashboard.jsx:267 | at most five contacts: the last ones, newest first |
| SessionDashboard.NewestHeadsRecent | src/components/SessionDashboard.jsx:267 | a new contact heads the recent view, followed by the four newest from before |
| VcfExport.CardShape | src/components/SessionDashboard.jsx:74-80 | seven lines, or eight with a company; the EMAIL line is always present; an ORG line is present iff the company is non-empty |
| VcfExport.CardText | src/components/SessionDashboard.jsx:74-80 | a card's text is BEGIN, VERSION, FN, TEL, EMAIL, an optional ORG, END and a blank line, in that order |
| VcfExport.CardsRoundTrip | src/components/SessionDashboard.jsx:73-81 | reading the lines of all cards back gives each contact's fields in list order |
| VcfExport.SplitJoin | src/components/SessionDashboard.jsx:74-80 | splitting "\n"-terminated lines recovers the lines when none holds a break |
| VcfExport.VcfRoundTrip | src/components/SessionDashboard.jsx:72-81 | decoding the vCard text gives every contact's name, phone, email and company in order, when no field holds a line break |
| CsvExport.Escape | src/components/SessionDashboard.jsx:115 | quote doubling never shortens a field |
| CsvExport.Quote | src/components/SessionDashboard.jsx:115 | a quoted field starts and ends with a double quote |
| CsvExport.CsvText | src/components/SessionDashboard.jsx:107-116 | the text starts with the header `Name,Email,Phone,Company` and is just the header for no contacts |
| CsvExport.UnescapeEscape | src/components/SessionDashboard.jsx:115 | un-quoting a quoted field returns it exactly, whatever quotes it holds |
| CsvExport.QuoteRoundTrip | src/components/SessionDashboard.jsx:115 | a quoted field parses back to itself and leaves the following text untouched |
| CsvExport.RecordRoundTrip | src/components/SessionDashboard.jsx:110-115 | a comma-joined record of quoted fields parses back to its fields |
| CsvExport.BodyRoundTrip | src/components/SessionDashboard.jsx:108-116 | the "\n"-joined records parse back to one row per contact in order |
| CsvExport.CsvRoundTrip | src/components/SessionDashboard.jsx:107-116 | decoding the CSV gives each contact's name, email, phone and company in list order, even with commas, quotes or line breaks |
| CsvExport.QuoteExample | src/components/SessionDashboard.jsx:115 | `say "hi"` is written as `"say ""hi"""` |
| UserDashboard.Insert | src/components/UserDashboard.jsx:47-54 | inserting into a sorted list adds exactly that element and keeps the list sorted |
| UserDashboard.SortSessions | src/components/UserDashboard.jsx:47-54 | the result is a permutation of the rows, sorted open-before-expired and then newest `created_at` first |
| UserDashboard.ExpiredFormSuffix | src/components/UserDashboard.jsx:47-54 | at the instant of the fetch, every expired session comes after every open one, and within a status newer sessions come first |
| UserDashboard.SortKeepsSorted | src/components/UserDashboard.jsx:47-54 | sorting an already sorted list returns it unchanged |
| UserDashboard.FetchSessions | src/components/UserDashboard.jsx:28-58 | a listing is shown sorted; no user or a query error keeps the list; loading always ends |
| UserDashboard.Without | src/components/UserDashboard.jsx:89 | the filter keeps exactly the sessions whose id differs |
| UserDashboard.WithoutSingle | src/components/UserDashboard.jsx:89 | a single session is dropped exactly when it has the id, else kept |
| UserDashboard.WithoutConcat | src/components/UserDashboard.jsx:89 | the filter distributes over concatenation, so with WithoutSingle the kept sessions stay in order with their repetitions |
| UserDashboard.WithoutIdempotent | src/components/UserDashboard.jsx:89 | filtering twice equals filtering once, and filtering an absent id changes nothing |
| UserDashboard.DeleteSession | src/components/UserDashboard.jsx:68-100 | only a confirmed delete by a signed-in user removes that id, leaving the filtered list with the others in order; otherwise the list is kept and the error text (or a fixed one) is shown |
| GlobalContacts.GlobalRecord | src/components/GlobalContactsManager.jsx:54-61 | trimmed name, raw phone, email/company trimmed or null for blank input |
| GlobalContacts.AddContact | src/components/GlobalContactsManager.jsx:42-76 | the two guards before any insert; 23505 means a duplicate; other errors get the message after a fixed prefix; the form clears exactly on success |
| GlobalContacts.StoredNameIsTrimmedAndNonEmpty | src/components/GlobalContactsManager.jsx:44-57 | a sent record has a non-empty name without surrounding whitespace, and a non-empty phone |
| GlobalContacts.FailedAddKeepsForm | src/components/GlobalContactsManager.jsx:63-75 | after a failed insert the form is kept, so a retry sends the same record |
| Seeding.RowOf | src/main.jsx:56-61 | name and phone verbatim and non-empty; falsy email/company become null |
| Seeding.Step | src/main.jsx:42-69 | an entry appends its row exactly when the lookup does not fail otherwise, the phone is absent or hidden by "no rows", and the insert succeeds |
| Seeding.Seed | src/main.jsx:19-34 | no configuration, unparsable JSON, a non-list or an empty list leaves the table unchanged |
| Seeding.RunOnlyAppends | src/main.jsx:36-70 | the table before the run is a prefix of the table after it |
| Seeding.AppendedRowsComeFromCompleteEntries | src/main.jsx:37-40 | every appended row is the row of an entry with a name and a phone |
| Seeding.RunKeepsPhonesDistinct | src/main.jsx:42-69 | when lookups consult the table, distinct phones stay distinct, even across repeats in the list |
| Seeding.RunCovers | src/main.jsx:36-70 | after an error-free run, every complete entry before the first null has its phone in the table |
| Seeding.CoveredRunIsNoOp | src/main.jsx:42-69 | a run whose phones are all present adds nothing |
| Seeding.SeedIdempotent | src/main.jsx:36-70 | a second seeding with the same list adds nothing |
| Seeding.FailureSkipsOnlyThatEntry | src/main.jsx:48-63 | a failed lookup or insert skips only its own entry; the loop goes on |
| Seeding.RepeatedPhoneInsertedOnce | src/main.jsx:36-69 | a later entry with the phone of an inserted entry is skipped |

## Left out

- Rendering, animation, toasts and layout are not modelled, and neither are the presentational
  components. The countdown's text and the routed form's relative-time label
  (`formatDistanceToNowStrict`) are left out too.
- Authentication components and routing (`App.jsx`) are thin wrappers over the auth service and
  the router. The user dashboard takes "signed in" as a flag.
- Timers (`setInterval`, `setTimeout`) are left out. Each tick is one function call with the
  clock as an argument.
- The local form's 1.5 s delay before showing success is not modelled, and neither are the
  `isSubmitting` flags of the storage variant, the hook and the global contacts form. The outcome
  is settled at once. The routed page's flag is modelled (`RoutedState.submitting`).
- `isValidPhoneNumber` is not modelled: it belongs to a third-party library and is a parameter.
- JSON (de)serialisation and localStorage other than the `session_auth_<id>` cache are left out.
  A stored session is an optional record, so JSON members of the wrong type are not modelled.
- Random session ids and `parseInt` are left out. The id is a parameter, and the duration is
  either blank or an integer.
- Blob, URL and anchor downloads, and copying the share link to the clipboard, are browser APIs
  and are left out. The download is the file name and the text.
- Loading and deleting global contacts by hand (`fetchGlobalContacts`, `handleDeleteContact` in
  `GlobalContactsManager.jsx`) is plain store plumbing without decision logic, so it is left out.
- The database's unique constraint and the seeding loop's check-then-insert race are concurrency
  and schema concerns. A blind insert after the tolerated lookup failure (code `PGRST116`) appends unconditionally.
- The three seeding environment variables collapse into one "unconfigured" case, because only
  whether the loop runs matters. Logging is dropped.
- ContactFormHook.Submit: with every guard passing and no session loaded, the source throws while
  reading the prefix, which leaves `isSubmitting` set. The model reports `NoSession` and nothing
  else.
- LocalContactForm.Submit: it assumes the stored session always has a contact list. The source
  reads a missing list as empty for the duplicate check, but would throw on the push.
- UserDashboard.SortSessions: states the permutation and the order, but not that ties (same
  status and `created_at`) keep the order of the query.
- VcfExport.VcfRoundTrip: holds only for fields without line breaks. The export escapes nothing,
  so a line break inside a field produces extra lines.
- UserDashboard.ExpiredFormSuffix: states the order with the clock of the fetch. Each card's
  dimmed flag reads the clock again at every render, and the list is not re-sorted then. A session
  that expires after the fetch is therefore dimmed but stays among the open cards. That later
  state is not modelled.
- RoutedContactForm.Tick: does not model the guard against a missing `expires_at`, because
  timestamps are integers here.
