# Client-side login and OTP flow of the trygve front end, in Dafny

This project models the decision logic of the healthcare-booking app's
authentication screens. Each React handler becomes a pure transition over
explicit state. The covered pieces are:

- the local user directory and the merged current-session record (`authStore.ts`);
- the login form: phone filter, email and phone checks, the dual directory lookup
  with its ordered decision chain, and the payload for the login OTP page (`Login.tsx`);
- the six-cell OTP entry shared by both OTP pages (`OtpInput`);
- the provider-backed OTP page, with its entry guard, submit, back and button rule
  (`OtpVerification.tsx`);
- the locally checked login OTP page, with its entry guard, submit and resend
  (`Login_otp.tsx`);
- the provenance guards of the welcome page and the "account created" page, and
  the `PrivateRoute` guard;
- the onboarding carousel's slide index.

Modelling choices:

- **Storage.** `localStorage` is a `Storage` record with one optional slot per key
  the core uses: `auth_users_list`, `auth_session` and `isAuthenticated`. `None`
  means the key is absent.
- **Navigation state.** `location.state` is `Option<map<string, string>>`. `None`
  is `null`, and a key missing from the map reads as `undefined`. A field is
  "truthy" when it is present and non-empty.
- **Navigation.** Each `navigate(path, {state, replace})` call is a `Nav` value.
- **Focus and cells.** DOM focus is the index of the focused cell. Each handler is
  one atomic transition.
- **Flow and provenance values.** These stay strings, as in the code. For example,
  the provider-backed OTP page admits any non-empty `flow` and treats everything
  other than `'login'` as sign-up.

The handlers `handleChange`, `handleKeyDown` and `handlePaste` behave the same
in `src/components/common/OtpVerification.tsx:50-74` and
`src/components/Login/Login_otp.tsx:42-68`. Both pages use the one definition in
module `OtpInput`.

Main results:

- **Login can only proceed on one record.** `Login.ProceedIffFirstMentionMatches`
  shows that a proceeding login's two lookups return the same record. Uniqueness
  is not needed for this: first-match lookup is enough. So identifiers taken from
  two different records never proceed (`Login.CrossMatchedNeverProceeds`).
- **Register's postcondition is narrower than it looks.** `registerUser` does not
  guarantee that both new identifiers exist afterwards.
  `AuthStore.RegisterCanLeavePhoneUnknown` gives a concrete case: an email already
  taken by a record with another phone.
- **The decision table holds only on real lookups.** A per-case decision table
  gives one outcome per combination of the two lookups. Both misses mean no
  account. An email hit alone is a phone mismatch, and a phone hit alone is an
  email mismatch. With both hits, the email record's phone is checked first, then
  the phone record's email; otherwise the login proceeds with the phone record's
  name, or "User". The code's ordered chain differs from this table on exactly
  two shapes of lookups: one lookup misses, and the other hits a record that also
  carries the other typed identifier (`Login.ChainDiffersExactly`). There the
  chain proceeds as "User" and the table rejects with a phone or email mismatch
  (`Login.ChainDiffersOffDirectory`). No directory produces either shape, and on
  lookups from one directory the two agree (`Login.ChainMatchesTable`). The model
  follows the code.

## Model

| member | source | states |
|---|---|---|
| AuthStore.GetUserSession | src/utils/authStore.ts:24-27 | the session is null exactly when the `auth_session` key is absent |
| AuthStore.SaveUserSession | src/utils/authStore.ts:14-18 | each field given in the update overrides; each absent field keeps its old value; a missing session acts as empty; the other keys are untouched |
| AuthStore.SaveUserSessionFacts | src/utils/authStore.ts:14-18 | saving onto no session stores exactly the update; saving the same update twice equals saving it once |
| AuthStore.ClearUserSession | src/utils/authStore.ts:32-34 | afterwards `getUserSession` is null and nothing else changed |
| AuthStore.GetAllUsers | src/utils/authStore.ts:46-49 | an absent list key reads as the empty list |
| AuthStore.AnyMatch | src/utils/authStore.ts:58-60 | `some` over the list is true iff some record's email or phone equals the identifier |
| AuthStore.UserExists | src/utils/authStore.ts:56-61 | true iff some record's email or phone equals the identifier exactly |
| AuthStore.FirstMatch | src/utils/authStore.ts:87-89 | returns the index of a matching record with no earlier match, and nothing iff no record matches |
| AuthStore.FindUser | src/utils/authStore.ts:85-90 | returns the first matching record in list order, and null iff `userExists` is false |
| AuthStore.RegisterUser | src/utils/authStore.ts:67-78 | no change if the new email or phone is any record's identifier; otherwise appends at the end, earlier records kept in order; afterwards at least one new identifier exists, and both do when it inserted |
| AuthStore.RegisterCanLeavePhoneUnknown | src/utils/authStore.ts:67-71 | a registration whose email is taken leaves the store unchanged and its phone unknown |
| AuthStore.DisjointIdentifiersUnique | src/utils/authStore.ts:67-75 | a directory whose records share no identifier has pairwise distinct emails and pairwise distinct phones |
| AuthStore.RegisterPreservesDisjoint | src/utils/authStore.ts:67-75 | `registerUser` keeps records from sharing identifiers |
| AuthStore.RegisterPreservesUnique | src/utils/authStore.ts:67-75 | from a list whose emails are pairwise distinct and whose phones are pairwise distinct, `registerUser` keeps both distinct |
| AuthStore.RegisterAllUnique | src/utils/authStore.ts:67-75 | any sequence of registrations from such a directory keeps emails and phones unique |
| Text.StripNonDigits | src/components/Login/Login.tsx:18 | `replace(/\D/g, '')` leaves only ASCII digits, is never longer than its input, and leaves an all-digit string unchanged |
| Text.StripNonDigitsKeepsDigits | src/components/common/OtpVerification.tsx:69 | `replace(/\D/g, '')` keeps each digit as many times as it occurs in the input and drops every other character |
| Login.HandleInputChange | src/components/Login/Login.tsx:15-29 | a phone edit stores the digits only if there are at most ten, otherwise keeps the phone; the email is stored verbatim; the error is cleared; a well-formed phone stays well-formed |
| Login.TypingKeepsPhoneWellFormed | src/components/Login/Login.tsx:15-29 | after any sequence of edits the phone holds at most ten ASCII digits |
| Login.TypingFromStart | src/components/Login/Login.tsx:7-29 | from the empty form the page starts with, any sequence of edits leaves at most ten digits in the phone field |
| Login.SubmitEnabled | src/components/Login/Login.tsx:147 | the button is enabled iff the phone has ten characters and the email is non-empty |
| Login.EnabledPassesPhoneCheck | src/components/Login/Login.tsx:41-44 | with the button enabled, submitting never yields the phone-length rejection |
| Login.IsValidEmail | src/components/Login/Login.tsx:35-36 | an accepted email has at least five characters, no whitespace and an `@` past the first character; `Login.ValidEmailIffPattern` gives the exact match with the regex |
| Login.IndexOf | src/components/Login/Login.tsx:35 | the first position of a character, or nothing iff it does not occur |
| Login.ValidEmailIffPattern | src/components/Login/Login.tsx:35-36 | the operational email check (one `@`, no whitespace, non-empty local part, interior `.` after the `@`) accepts exactly the strings `^[^\s@]+@[^\s@]+\.[^\s@]+$` matches |
| Login.ErrorMessage | src/components/Login/Login.tsx:37-65 | every rejection puts a non-empty message in the error line |
| Login.Chain | src/components/Login/Login.tsx:50-68 | no account iff both lookups miss; proceeds iff some lookup hits, the email hit carries this phone and the phone hit carries this email; a proceeding name is never empty |
| Login.ChainMatchesTable | src/components/Login/Login.tsx:47-65 | on two lookups from one directory, the ordered chain equals the per-case decision table (one outcome per combination of the two lookups) |
| Login.ChainDiffersOffDirectory | src/components/Login/Login.tsx:50-69 | an email hit alone whose record carries the typed phone, or a phone hit alone whose record carries the typed email, makes the chain proceed as "User" where the table rejects |
| Login.ChainDiffersExactly | src/components/Login/Login.tsx:50-69 | the chain and the per-case table disagree iff one lookup misses and the other hits a record carrying both typed identifiers |
| Login.FirstMention | src/components/Login/Login.tsx:47-48 | the first record carrying either identifier, with no earlier record carrying one |
| Login.ProceedIffFirstMentionMatches | src/components/Login/Login.tsx:47-68 | the chain proceeds iff the first record mentioning the email or the phone has exactly this email and phone, and then both lookups return that record |
| Login.CrossMatchedNeverProceeds | src/components/Login/Login.tsx:47-65 | when the two lookups return different records the outcome is a phone or email mismatch |
| Login.ProceedIffRegisteredPair | src/components/Login/Login.tsx:47-68 | in a directory whose records share no identifier, login proceeds iff some record holds this exact email and phone |
| Login.HandleLogin | src/components/Login/Login.tsx:31-88 | an invalid email is rejected first and a bad phone length second; then no account, phone mismatch and email mismatch in that order; on proceed it navigates to `/login-otp` with the email, phone, the matched name or 'User', flow 'login' and the code |
| Login.ShowOutcome | src/components/Login/Login.tsx:37-65 | a rejection shows its message and keeps the form; a navigation leaves the page as it was |
| OtpInput.Join | src/components/common/OtpVerification.tsx:79 | the joined code is empty iff every cell is empty, and starts with the first cell |
| OtpInput.Split | src/components/common/OtpVerification.tsx:71 | one cell per character, holding that character |
| OtpInput.JoinLength | src/components/common/OtpVerification.tsx:79 | the joined code's length is the number of filled cells and it holds only digits |
| OtpInput.CodeCompleteIffAllFilled | src/components/common/OtpVerification.tsx:79-82 | for well-formed cells the code has length six iff every cell is filled |
| OtpInput.JoinSplit | src/components/common/OtpVerification.tsx:71 | splitting a string into cells and joining them gives the string back |
| OtpInput.ClearedIsEmpty | src/components/common/OtpVerification.tsx:109 | the cleared cells are well-formed and join to the empty code |
| OtpInput.Change | src/components/common/OtpVerification.tsx:50-59 | an empty or one-digit value replaces only that cell and a digit moves focus to index+1 below the last cell; any other value changes nothing; well-formedness is kept |
| OtpInput.KeyDown | src/components/common/OtpVerification.tsx:61-65 | Backspace on an empty cell past the first moves focus back one; the cells never change |
| OtpInput.Paste | src/components/common/OtpVerification.tsx:67-74 | exactly six digits after stripping fill the cells in order (joining back to those digits) and focus the last cell; any other paste changes nothing |
| OtpInput.PasteRoundTrip | src/components/common/OtpVerification.tsx:67-74 | pasting a six-digit code puts one digit per cell and joins back to the code |
| OtpInput.PasteFullCode | src/components/common/OtpVerification.tsx:67-74 | pasting "123456" gives cells 1 to 6 with focus on the last |
| OtpInput.PasteShortCode | src/components/common/OtpVerification.tsx:67-74 | pasting "12a456" changes nothing |
| OtpVerification.Enter | src/components/common/OtpVerification.tsx:23-42 | admits iff flow and phone are non-empty and a confirmation handle exists; otherwise replaces the entry with `/login` for the login flow, else `/signup` |
| OtpVerification.NextStep | src/components/common/OtpVerification.tsx:94-105 | login goes to `/welcome` with from 'login' and the name; any other mode goes to `/create-account` with from 'otp-verified'; both replace |
| OtpVerification.Submit | src/components/common/OtpVerification.tsx:76-114 | it navigates iff the code has six characters, a handle exists and the oracle confirms; on success the auth flag is set and the handle dropped; a short code or a missing handle changes nothing; a refused code clears the cells; only success writes the flag |
| OtpVerification.SubmitDisabled | src/components/common/OtpVerification.tsx:161 | enabled only with a six-character code and no check running |
| OtpVerification.SubmitEnabledIffFilled | src/components/common/OtpVerification.tsx:161 | with well-formed cells, enabled iff all six cells are filled and no check is running |
| OtpVerification.Back | src/components/common/OtpVerification.tsx:116-118 | back goes to `/login` iff the mode is login, else `/signup` |
| OtpVerification.BackMatchesEntryRedirect | src/components/common/OtpVerification.tsx:26-40 | on an admitted page, back leads to the path a refused entry would be sent to for the same flow |
| OtpVerification.ConfirmedOnce | src/components/common/OtpVerification.tsx:89-92 | after a success the handle is gone, so a second submit is turned away and changes nothing |
| OtpVerification.RefusedCodeRetries | src/components/common/OtpVerification.tsx:106-110 | a refused code leaves empty cells, focus 0, and the flag and handle untouched |
| LoginOtp.Enter | src/components/Login/Login_otp.tsx:23-33 | admits iff email, phone, fullName and otp are non-empty and flow is 'login'; otherwise goes to `/login` |
| LoginOtp.WelcomeNav | src/components/Login/Login_otp.tsx:81-86 | the navigation goes to `/welcome` with from 'login' and the held name |
| LoginOtp.Submit | src/components/Login/Login_otp.tsx:70-92 | a short code changes nothing; it navigates to `/welcome` iff the six-character code equals the held code; any other code clears the cells |
| LoginOtp.Resend | src/components/Login/Login_otp.tsx:94-101 | the held code becomes the new code and the entry is reset to six empty cells with focus on the first; the identity is kept |
| LoginOtp.SubmitDisabled | src/components/Login/Login_otp.tsx:152 | a disabled button means submit would change nothing |
| LoginOtp.ResendReplacesCode | src/components/Login/Login_otp.tsx:78-101 | after a resend, a complete entry verifies iff it spells the new code, so the old code fails unless it equals the new one |
| LoginOtp.PastedCodeVerifies | src/components/Login/Login_otp.tsx:60-86 | pasting text whose digits are the held code and submitting reaches `/welcome` |
| Text.FirstWord | src/pages/WelcomePage.tsx:22 | `split(' ')[0]` is a prefix of the name containing no space, and it either is the whole name or is followed by a space |
| WelcomePage.Enter | src/pages/WelcomePage.tsx:17-28 | allowed iff from is 'login' and the name is non-empty, showing the name's prefix before the first space; otherwise replaces the entry with `/login` and leaves the view |
| WelcomePage.FreshVisit | src/pages/WelcomePage.tsx:14-37 | on a fresh page, content renders iff the provenance is allowed, and a refused visit keeps the default name 'User' |
| WelcomePage.ContinueCarriesFirstWord | src/pages/WelcomePage.tsx:21-34 | after an allowed visit, continuing passes the dashboard the first word of the received name |
| WelcomePage.Continue | src/pages/WelcomePage.tsx:30-35 | continue replaces the entry with `/dashboard`, passing from 'welcome' and the shown name |
| BackToLogin.Enter | src/pages/backtoLogin.tsx:12-27 | a non-empty name is shown and `auth_session` is removed; otherwise the entry is replaced with `/home` and storage is untouched; the user list and auth flag never change |
| BackToLogin.FreshVisit | src/pages/backtoLogin.tsx:33-36 | on a fresh page, content renders iff the state carries a name |
| BackToLogin.LoginNow | src/pages/backtoLogin.tsx:29-31 | "Log In Now" replaces the entry with `/login` |
| BackToLogin.VisitThenLogin | src/pages/backtoLogin.tsx:16-31 | a visit with a name followed by "Log In Now" reaches `/login` with the session record removed and the user list and flag untouched |
| PrivateRoute.Guard | src/routes/PrivateRoute.tsx:11-28 | null shows loading; unauthenticated goes to `/login` whatever `isVerified` is; authenticated but unverified goes to the verification path; children render iff both hold; redirects replace and carry the location |
| PrivateRoute.DefaultPath | src/routes/PrivateRoute.tsx:11 | the default verification path is `/verification-pending` |
| Onboarding.Next | src/components/Onboarding.tsx:32-34 | one slide forward, never past the last |
| Onboarding.Skip | src/components/Onboarding.tsx:36-38 | skip goes to the last slide |
| Onboarding.Tick | src/components/Onboarding.tsx:45-51 | one slide forward below the last, unchanged at the last |
| Onboarding.RunStaysInRange | src/components/Onboarding.tsx:30-51 | from a slide in range, any sequence of next, skip and tick stays within the four slides and never goes back |
| Onboarding.RunFromStart | src/components/Onboarding.tsx:30-51 | the carousel starts at slide 0 and no sequence of next, skip and tick takes it past the last slide |
| Onboarding.TransitionFacts | src/components/Onboarding.tsx:32-51 | skip is idempotent, and next and tick agree on every reachable slide |
| Onboarding.ButtonsFor | src/components/Onboarding.tsx:84-91 | Skip and Next are shown iff the slide is before the last, otherwise Get Started |
| Onboarding.ButtonsMatchProgress | src/components/Onboarding.tsx:32-38 | Skip and Next are offered iff Next still moves forward, and Get Started iff Skip stays put |
| Onboarding.OnlyFirstSlideHasLogo | src/components/Onboarding.tsx:4-27 | only slide 0 carries a logo |
| LoginJourney.PayloadAdmitted | src/components/Login/Login_otp.tsx:23-28 | the login OTP page admits the payload the login form sends |
| LoginJourney.HeldCodeReachesWelcome | src/components/Login/Login_otp.tsx:60-86 | pasting the held six-digit code and submitting navigates to `/welcome` |
| LoginJourney.WelcomeAccepts | src/pages/WelcomePage.tsx:17-23 | the welcome page accepts the OTP page's provenance for any non-empty name and greets its first word |
| LoginJourney.ProceedReachesWelcome | src/components/Login/Login.tsx:68-87 | a proceeding login, followed by the generated code, is admitted by the welcome page, which greets the first word of the matched user's name or 'User' |
| LoginJourney.WrongCodeStays | src/components/Login/Login_otp.tsx:87-91 | any other six-character code neither navigates nor keeps the entered digits |
| LoginJourney.ProviderLoginWithNameIsWelcomed | src/components/common/OtpVerification.tsx:94-98 | a provider-backed login with a name sets the auth flag and the welcome page allows it, greeting the name's first word |
| LoginJourney.ProviderLoginWithoutNameIsTurnedAway | src/components/common/OtpVerification.tsx:94-98 | a provider-backed login with no name sets the auth flag yet the welcome page sends the user back to `/login` |

## Left out

- The phone-verification provider (`src/firebase/auth.ts`): reCAPTCHA set-up and
  sending the code are not part of this model. The confirmation handle is an
  opaque `Challenge` checked by an oracle parameter. A provider error and a wrong
  code both appear as the oracle returning false, as in the single `catch`.
- Random code generation (`Math.random`, Login.tsx:72 and Login_otp.tsx:95): the
  code is a parameter. `LoginJourney.GeneratedCode` states what the generator
  yields: six digits, the first non-zero.
- JSON serialisation in storage: each key holds a typed value. A session update
  with a field explicitly set to `undefined` is treated like an absent field. In
  the source such a field would be dropped by `JSON.stringify`.
- Navigation-state fields are strings or absent. Non-string values, and the
  location object passed as `from` by `PrivateRoute`, are reduced to strings.
- DOM focus calls, `alert`, `console.*`, React's asynchronous state batching and
  the loading screens: each handler is one atomic step. The `isVerifying` flag
  set at the start of `handleSubmit` is reset on every path: explicitly before
  the early return for a short code or a missing handle, and by the `finally`
  after the confirmation. Only the final value is modelled.
- The onboarding timer's `setInterval`/`clearInterval` lifecycle: only the tick
  update is modelled. `getstarter` is an empty handler and is left out.
- `handleBack` and `handleSignUp` of the login form, and `handleBack` of the login
  OTP page: each is a single unconditional `navigate` with no decision.
- The sign-up pages (`SignUp.tsx`, `SignUp_OTP.tsx`, `CreateAccount.tsx`), the
  dashboard, home and not-found pages, the input and button widgets, and the route
  table: markup, or flows outside this model. Note that the route table registers
  `/otp-verify` but not the `/login-otp` path the login form navigates to. The
  model takes the navigation as given.
- AuthStore.RegisterUser: the property "after any registration both identifiers
  exist" does not hold in the source. It is stated only for the inserting case,
  plus "at least one exists" in general; see `AuthStore.RegisterCanLeavePhoneUnknown`.
