# Bonafide certificate app: a verified model of its core

The application issues enrollment ("bonafide") certificates. Students sign up
against a college, file certificate requests (purpose, academic year, year,
contact) and download the certificate once it is approved. College
administrators sign up together with their college, see every request, filter
and count them by status, approve or reject them, export them as CSV rows and
download the certificate of an approved request.

This project models the in-memory logic underneath the screens and proves what
it promises.

- **`Types`** (`types.dfy`): the records of the data model. They are users with
  and without password, colleges, student and admin profiles, requests with
  their three statuses, and the session state.
- **`Collections`** (`collections.dfy`) and **`Strings`** (`strings.dfy`): the
  JavaScript operations the code relies on. `find` is `FirstIndex`/`Find`, and
  the methods `Scan`/`FindFirst` are proved against them. `filter` is `Filter`,
  with a subsequence lemma. The string operations are `a || b` on optional
  strings, the global one-character `replace`, `includes`, and `split(sep)[0]`.
- **`Requests`** (`requests.dfy`): the request ledger. It is a class `Ledger`
  holding a `seq` of requests, newest first. Submission prepends a pending
  request. `updateRequestStatus` records a decision on the request with the
  given id. The two reads are functions. Pure functions (`Submit`, `Process`,
  `UpdateAll`, `ByStudent`, `CountStatus`) specify the methods, and lemmas
  relate them.
- **`Auth`** (`auth.dfy`): the identity store and the session. The class
  `AuthStore` holds the four tables (accounts, colleges, student profiles,
  admin profiles), the authentication state and the browser-storage slot
  `currentUser`. Signup, login, logout, the startup restore and the profile
  lookup (which fills in a missing college in place) are methods. `Valid()` is
  the store's invariant: unique emails and ids, and the links between the
  tables (admin ↔ college ↔ account). Every method keeps it.
- **`SignupForm`** (`signup_form.dfy`): the signup form's state and its
  submission. The validation chain reports only the first failure, and the
  data sent to the store is built from the form.
- **`AdminDashboard`** and **`StudentDashboard`**: the derived views. These are
  the status filter, the stat cards, approve/reject, CSV rows with their `N/A`
  defaults, the actor-name fallback, the guards and file names of the
  certificate download, and the actions offered per status. The student's
  request form is a class.
- **`Certificate`** (`certificate.dfy`): `formatLabel` (hyphens to spaces, then
  the first letter of every ASCII word upper-cased) with its length,
  idempotence and example properties. It also holds the `N/A` defaults of the
  certificate text and the logo condition.
- **`FileInput`** (`file_input.dfy`): the file picker control, with its drop
  test on the top-level MIME type.
- **`App`** and **`DashboardPage`**: the route/redirect decision and the
  role → dashboard dispatch.

Fresh ids (`uuid`) and clock readings are parameters of the operations.
Browser storage is one `Option<User>` field.

Where the code and the intended design part ways, the model follows the code:

- No pending-only guard exists on decisions: deciding an already decided
  request overwrites the earlier decision (`Requests.ReprocessOverwrites`).
- The administrator sees and counts every college's requests; nothing scopes
  the ledger to the administrator's college.
- A new request has no certificate path and no processing date or actor only
  when its draft has none. The draft is spread into the new request
  (`Requests.SubmitSettledIffBlank`). The student dashboard's drafts are always
  blank (`StudentDashboard.DashboardSubmission`).
- The administrator's download is named after the student's name, with spaces
  turned into `_`. The student's download is named after the request id.
- The drop test of the file picker is a substring test, not a MIME match. An
  empty top-level type passes any `accept` (`FileInput.EmptyKindAlwaysAccepted`).

## Model

| member | source | states |
|---|---|---|
| Collections.FirstIndex | src/context/AuthContext.tsx:77 | the index found satisfies the test and no earlier element does; none exactly when no element satisfies it |
| Collections.Find | src/context/AuthContext.tsx:145 | `find` yields the first element of the list that satisfies the test (no earlier element passes), or none exactly when no element does |
| Collections.Scan | src/context/AuthContext.tsx:99 | the linear scan returns the first matching index (loop invariant: no earlier element matches) |
| Collections.FindFirst | src/context/AuthContext.tsx:178 | the scan followed by the element it stopped at is `find` |
| Collections.Filter | src/context/RequestsContext.tsx:45 | `filter` keeps exactly the elements that pass and never lengthens the list |
| Collections.FilterAppend | src/components/dashboard/AdminDashboard.tsx:32-34 | filtering a concatenation is the concatenation of the filtered parts |
| Collections.FilterAll | src/components/dashboard/AdminDashboard.tsx:26 | a filter every element passes returns the list unchanged |
| Collections.MatchingPositions | src/context/RequestsContext.tsx:45 | the matching positions are in range, strictly increasing, and exactly the positions whose element passes |
| Collections.FilterAtMatching | src/context/RequestsContext.tsx:45 | the k-th kept element is the element at the k-th matching position |
| Collections.FilterIsSubsequence | src/context/RequestsContext.tsx:45 | `filter` yields a subsequence in order: kept elements sit at strictly increasing positions, which are exactly the passing ones |
| Strings.OrElse | src/components/dashboard/AdminDashboard.tsx:38 | `s \|\| fallback`: the fallback exactly when the value is missing, empty or equal to the fallback, else the value |
| Strings.ReplaceChar | src/components/dashboard/AdminDashboard.tsx:92 | global replace of one character: same length, each occurrence replaced, every other character kept, none left |
| Strings.IncludesIffOccurs | src/components/ui/FileInput.tsx:40 | `includes` holds exactly when the pattern occurs at some position |
| Strings.BeforeFirst | src/components/ui/FileInput.tsx:40 | `split(sep)[0]` is a separator-free prefix, followed in the input by the separator unless it is all of it |
| Strings.BeforeFirstSplit | src/components/ui/FileInput.tsx:40 | a separator-free prefix followed by the separator is what `split(sep)[0]` returns |
| Strings.ReplaceSingle | src/components/certificate/CertificateTemplate.tsx:19 | with a single occurrence of the character, replacing it changes only that position |
| Requests.Submit | src/context/RequestsContext.tsx:19-24 | a new request has the fresh id and date and status pending, and every other field from the draft |
| Requests.Process | src/context/RequestsContext.tsx:31-38 | a decision sets status, actor and date; the certificate path exactly on approval, as `certificates/<id>.pdf`; nothing else changes |
| Requests.UpdateAll | src/context/RequestsContext.tsx:29-40 | same length; requests with the id are processed, all others untouched; an unknown id changes nothing |
| Requests.ByStudent | src/context/RequestsContext.tsx:44-46 | exactly the requests of that student |
| Requests.ByStudentIsSubsequence | src/context/RequestsContext.tsx:44-46 | the student's requests are a subsequence of the ledger, in ledger order, holding every request of the student |
| Requests.SubmitThenByStudent | src/context/RequestsContext.tsx:25 | a new request heads its student's list and appears in no other student's list |
| Requests.ReprocessOverwrites | src/context/RequestsContext.tsx:28-41 | with no pending-only guard, a second decision on a request wholly replaces the first |
| Requests.SubmitSettledIffBlank | src/context/RequestsContext.tsx:19-24 | a new request has consistent decision fields exactly when its draft carries none |
| Requests.UpdateAllSettles | src/context/RequestsContext.tsx:31-38 | every decided request has consistent decision fields, and a ledger of such requests stays so |
| Requests.CountStatus | src/components/dashboard/AdminDashboard.tsx:32-34 | a status count is at most the total, and zero exactly when no request has that status |
| Requests.StatusCountsPartition | src/components/dashboard/AdminDashboard.tsx:30-35 | the three status counts sum to the number of requests |
| Requests.UpdateOne | src/context/RequestsContext.tsx:29-40 | with distinct ids, deciding request i replaces that one request in place |
| Requests.DecisionMovesOneCount | src/context/RequestsContext.tsx:28-41 | a decision moves one request from its old status count to the new one; other counts stay |
| Requests.Ledger.constructor | src/context/RequestsContext.tsx:16 | the ledger starts empty |
| Requests.Ledger.SubmitRequest | src/context/RequestsContext.tsx:18-26 | prepends the new request: one longer, old entries kept in order, ids stay distinct |
| Requests.Ledger.UpdateRequestStatus | src/context/RequestsContext.tsx:28-42 | the ledger becomes `UpdateAll`: length, ids and order kept, other requests untouched, an unknown id changes nothing |
| Requests.Ledger.GetRequestsByStudent | src/context/RequestsContext.tsx:44-46 | exactly the student's requests, in ledger order |
| Requests.Ledger.GetAllRequests | src/context/RequestsContext.tsx:48-50 | the whole ledger |
| Auth.Authenticate | src/context/AuthContext.tsx:77-88 | login succeeds exactly when the first account with the email has that password, and yields it without the password |
| Auth.AuthenticateExact | src/context/AuthContext.tsx:77-78 | with unique emails, login succeeds exactly for a registered email/password pair |
| Auth.SignupThenLogin | src/context/AuthContext.tsx:99-112 | after a signup with an unused email, logging in with the same credentials yields the new account |
| Auth.AdminCollegeIsOwned | src/context/AuthContext.tsx:176-180 | in a linked store an administrator's filled-in college is owned by that administrator |
| Auth.AppendAccountKeepsUnique | src/context/AuthContext.tsx:112 | appending an account with an unused email and id keeps emails and ids unique |
| Auth.AppendCollegeKeepsUnique | src/context/AuthContext.tsx:126 | appending a college with a fresh id keeps college ids unique |
| Auth.StudentSignupKeepsLinked | src/context/AuthContext.tsx:136-147 | a student signup keeps the tables linked |
| Auth.AdminSignupKeepsLinked | src/context/AuthContext.tsx:116-135 | an admin signup keeps the tables linked |
| Auth.FillAdminKeepsLinked | src/context/AuthContext.tsx:177-179 | filling in an admin profile's college keeps the tables linked |
| Auth.FillStudentKeepsLinked | src/context/AuthContext.tsx:183-185 | filling in a student profile's college keeps the tables linked |
| Auth.AdminSignupKeepsConsistent | src/context/AuthContext.tsx:103-135 | an admin signup with an unused email and fresh ids keeps the store consistent |
| Auth.StudentSignupKeepsConsistent | src/context/AuthContext.tsx:103-147 | a student signup with an unused email and fresh id keeps the store consistent |
| Auth.SeedsConsistent | src/context/AuthContext.tsx:15-52 | the seeded tables satisfy the store invariant |
| Auth.AuthStore.constructor | src/context/AuthContext.tsx:49-59 | the seeded tables, an unauthenticated session still loading, and the storage slot as found |
| Auth.AuthStore.Restore | src/context/AuthContext.tsx:61-73 | a stored user resumes an authenticated session; otherwise only loading stops; loading is false either way |
| Auth.AuthStore.Login | src/context/AuthContext.tsx:75-93 | succeeds exactly when `Authenticate` does, then sets session and slot to that user; on failure nothing changes |
| Auth.AuthStore.Signup | src/context/AuthContext.tsx:95-161 | succeeds exactly when the email is unused; a refused signup changes nothing; otherwise one account appended, the session signed in and stored, login works, and the admin or student records appended |
| Auth.AuthStore.AddAdminAccount | src/context/AuthContext.tsx:112-135 | appends the account, a college owned by it and an admin profile for it, keeping the invariant |
| Auth.AuthStore.AddStudentAccount | src/context/AuthContext.tsx:136-147 | appends the account and a student profile whose college is found by id, keeping the invariant |
| Auth.AuthStore.Logout | src/context/AuthContext.tsx:163-170 | the session is signed out and the slot cleared; the tables are untouched |
| Auth.AuthStore.GetCurrentUserProfile | src/context/AuthContext.tsx:172-188 | none without a session user; else the first admin or student profile of the user by role, with its college filled in, in the table too; an admin's college is one the admin owns |
| Auth.AuthStore.LoadAdminProfile | src/context/AuthContext.tsx:175-180 | the first admin profile of the user, its missing college filled in by lookup; that college is owned by the user |
| Auth.AuthStore.LoadStudentProfile | src/context/AuthContext.tsx:181-187 | the first student profile of the user, its missing college filled in by lookup |
| SignupForm.WithField | src/components/auth/SignupForm.tsx:82-84 | only the named field changes |
| SignupForm.FirstError | src/components/auth/SignupForm.tsx:41-55 | checks in order mismatch, then length under 6, then a logo over 10 MiB; only the first failure is reported; none exactly when all pass |
| SignupForm.SubmittedData | src/components/auth/SignupForm.tsx:61-71 | the form's fields and selected role; the logo is the object URL exactly when a file was chosen |
| SignupForm.SignupFormState.constructor | src/components/auth/SignupForm.tsx:16-34 | role student, every field empty, no file, no error, not loading |
| SignupForm.SignupFormState.SelectRole | src/components/auth/SignupForm.tsx:124-135 | only the role changes |
| SignupForm.SignupFormState.SetLogoFile | src/components/auth/SignupForm.tsx:218-224 | only the chosen logo file changes |
| SignupForm.SignupFormState.HandleInputChange | src/components/auth/SignupForm.tsx:82-84 | only the named form field changes |
| SignupForm.SignupFormState.HandleSubmit | src/components/auth/SignupForm.tsx:37-80 | a failing check sets its message and sends nothing; otherwise the signup failure message exactly when the email is taken, and then store and session are unchanged; no error exactly when it is free, and then the account is appended, signed in and stored with its college and admin profile or its student profile; loading over |
| AdminDashboard.FilteredRequests | src/components/dashboard/AdminDashboard.tsx:25-28 | `all` shows the whole ledger; a status shows exactly the requests with it, in order |
| AdminDashboard.Stats | src/components/dashboard/AdminDashboard.tsx:30-35 | each card counts its status, and the three sum to the total |
| AdminDashboard.ApproveMovesStat | src/components/dashboard/AdminDashboard.tsx:37-39 | approving a pending request moves one from the pending card to the approved card |
| AdminDashboard.ActorName | src/components/dashboard/AdminDashboard.tsx:38 | the admin's full name, or `Admin` when there is no user or the name is empty; never empty |
| AdminDashboard.HandleApprove | src/components/dashboard/AdminDashboard.tsx:37-39 | the ledger records an approval in the admin's name |
| AdminDashboard.HandleReject | src/components/dashboard/AdminDashboard.tsx:41-43 | the ledger records a rejection in the admin's name |
| AdminDashboard.CsvRow | src/components/dashboard/AdminDashboard.tsx:46-59 | twelve cells in column order; the student name, roll number, department, course and processed-by cells are the value when present and non-empty and `N/A` otherwise, so they are never blank; the processed date is the locale string of the date when present and non-empty, else `N/A` |
| AdminDashboard.CsvRows | src/components/dashboard/AdminDashboard.tsx:45-61 | one row per request of the whole ledger, in ledger order |
| AdminDashboard.AdminPdfFileName | src/components/dashboard/AdminDashboard.tsx:92 | `bonafide-certificate-<name>.pdf` with the name's spaces turned into `_`, or `student` when there is no name |
| AdminDashboard.GeneratePdf | src/components/dashboard/AdminDashboard.tsx:63-79 | stops exactly when the profile has no college; else the certificate for that college under the admin file name |
| AdminDashboard.AdminActions | src/components/dashboard/AdminDashboard.tsx:300-336 | approve and reject exactly for pending rows, download exactly for approved rows, nothing for rejected rows |
| AdminDashboard.ApproveOffersDownload | src/components/dashboard/AdminDashboard.tsx:320-336 | once approved, a row offers only the download, and its certificate is filed under its id |
| StudentDashboard.StudentId | src/components/dashboard/StudentDashboard.tsx:30 | the profile's id, or the empty string with no profile |
| StudentDashboard.MyRequests | src/components/dashboard/StudentDashboard.tsx:31 | exactly the ledger entries filed under the student's id, as the ledger's per-student read, hence in ledger order |
| StudentDashboard.Stats | src/components/dashboard/StudentDashboard.tsx:104-108 | the pending and approved counts sum to at most the total, with equality exactly when none is rejected |
| StudentDashboard.WithField | src/components/dashboard/StudentDashboard.tsx:49-51 | only the named field changes |
| StudentDashboard.DraftFrom | src/components/dashboard/StudentDashboard.tsx:35-39 | the four form fields, the student id and the profile, with no decision fields |
| StudentDashboard.DashboardSubmission | src/components/dashboard/StudentDashboard.tsx:33-39 | a dashboard request is pending, undecided and heads the student's own list |
| StudentDashboard.StudentDashboardView.constructor | src/components/dashboard/StudentDashboard.tsx:20-27 | form empty and hidden |
| StudentDashboard.StudentDashboardView.ToggleRequestForm | src/components/dashboard/StudentDashboard.tsx:181 | the form's visibility flips, its fields stay |
| StudentDashboard.StudentDashboardView.CancelRequestForm | src/components/dashboard/StudentDashboard.tsx:241 | the form is hidden, its fields stay |
| StudentDashboard.StudentDashboardView.HandleInputChange | src/components/dashboard/StudentDashboard.tsx:49-51 | only the named field changes |
| StudentDashboard.StudentDashboardView.HandleSubmit | src/components/dashboard/StudentDashboard.tsx:33-47 | the draft is prepended to the ledger, then the form is cleared and hidden |
| StudentDashboard.StudentPdfFileName | src/components/dashboard/StudentDashboard.tsx:82 | `bonafide-certificate-<request id>.pdf` |
| StudentDashboard.DownloadCertificate | src/components/dashboard/StudentDashboard.tsx:53-69 | stops exactly when no college has the profile's college id; else the certificate for the first college with that id, under the student file name |
| StudentDashboard.StudentActions | src/components/dashboard/StudentDashboard.tsx:303-319 | download exactly for approved requests, never approve or reject |
| Certificate.Upper | src/components/certificate/CertificateTemplate.tsx:19 | only `a`-`z` change, to their capitals; word characters stay word characters |
| Certificate.CapitalizeWords | src/components/certificate/CertificateTemplate.tsx:19 | same length; each word start is upper-cased and every other character kept |
| Certificate.StartsWordKept | src/components/certificate/CertificateTemplate.tsx:19 | strings with the same word-character positions have the same word starts |
| Certificate.CapitalizeWordsIdempotent | src/components/certificate/CertificateTemplate.tsx:19 | capitalising twice equals capitalising once |
| Certificate.FormatLabel | src/components/certificate/CertificateTemplate.tsx:17-20 | `N/A` for a missing or empty value; otherwise same length, no hyphen, word starts upper-cased after hyphens become spaces |
| Certificate.FormatLabelIdempotent | src/components/certificate/CertificateTemplate.tsx:17-20 | formatting a formatted label changes nothing |
| Certificate.NotApplicableIsFixed | src/components/certificate/CertificateTemplate.tsx:18-19 | the placeholder is left alone by the formatter |
| Certificate.DehyphenPair | src/components/certificate/CertificateTemplate.tsx:19 | between two lower-case words the hyphen alone becomes a space |
| Certificate.CapitalizePair | src/components/certificate/CertificateTemplate.tsx:19 | two space-separated lower-case words each get only their first letter capitalised |
| Certificate.HyphenatedPairLabel | src/components/certificate/CertificateTemplate.tsx:17-20 | two hyphen-joined lower-case words format as both capitalised, separated by a space |
| Certificate.PurposeLabelExample | src/components/certificate/CertificateTemplate.tsx:64 | `bank-loan` prints as `Bank Loan` |
| Certificate.DepartmentLabelExample | src/components/certificate/CertificateTemplate.tsx:58 | `computer-science` prints as `Computer Science` |
| Certificate.Render | src/components/certificate/CertificateTemplate.tsx:39-64 | logo shown exactly when the college has a non-empty one; name and roll number as stored, or `N/A` when missing or empty; department, course and purpose through `formatLabel`; name, roll number, department, course and purpose never blank; years, college name and address carried over |
| FileInput.MimeKind | src/components/ui/FileInput.tsx:40 | the top-level type: a slash-free prefix of the MIME type, followed by `/` unless it is all of it |
| FileInput.DropAcceptedIffOccurs | src/components/ui/FileInput.tsx:40 | a drop is accepted exactly when the top-level type occurs somewhere in `accept` |
| FileInput.EmptyKindAlwaysAccepted | src/components/ui/FileInput.tsx:40 | an empty top-level type passes any `accept` |
| FileInput.ImageKindExample | src/components/ui/FileInput.tsx:40 | the top-level type of `image/png` is `image` |
| FileInput.PdfKindExample | src/components/ui/FileInput.tsx:40 | the top-level type of `application/pdf` is `application` |
| FileInput.DefaultAcceptExamples | src/components/ui/FileInput.tsx:21 | with the default `image/*`, a PNG drop is accepted and a PDF drop is not |
| FileInput.FirstFile | src/components/ui/FileInput.tsx:31 | the first file, or none exactly when there is none |
| FileInput.FileInputControl.constructor | src/components/ui/FileInput.tsx:17-28 | the props as given, an empty input, no dialog opened |
| FileInput.FileInputControl.HandleFileChange | src/components/ui/FileInput.tsx:30-33 | the first chosen file, or none, is reported |
| FileInput.FileInputControl.HandleDrop | src/components/ui/FileInput.tsx:35-43 | ignored when disabled; the first dropped file is reported exactly when it passes the drop test |
| FileInput.FileInputControl.RemoveFile | src/components/ui/FileInput.tsx:49-54 | no file is reported and the input is emptied |
| FileInput.FileInputControl.OpenFileDialog | src/components/ui/FileInput.tsx:56-60 | the dialog opens unless the control is disabled |
| App.Route | src/App.tsx:11-34 | spinner while loading; dashboard only when authenticated on `/dashboard`; auth page only when unauthenticated on `/auth`; every other matched case redirects by authentication |
| App.Landing | src/App.tsx:19-34 | after one redirect a matched path shows the dashboard exactly when authenticated, and the dashboard never shows unauthenticated |
| DashboardPage.Page | src/pages/DashboardPage.tsx:12-14 | the header, then the admin dashboard exactly for an admin user and the student dashboard otherwise |
| DashboardPage.ExactlyOneDashboard | src/pages/DashboardPage.tsx:14 | exactly one dashboard is rendered |

## Left out

- PDF rendering is not modelled: the off-screen React root, the 500 ms timer, `html2canvas`, `jsPDF` and the per-row "Generating..." flag (`isGenerating`). These are foreign libraries and timer-driven asynchrony. Only the missing-college guard, the rendered text and the file name are modelled.
- Writing the CSV file (`src/utils/csvHelper.ts`, with its empty-data guard and file name) is not part of this model. Only the rows are.
- The clock and the locale are parameters. `toISOString` results are opaque strings, and `toLocaleString` is a function parameter of the CSV rows. The certificate issue date and `formatDate` are not modelled.
- `uuid` generation is not modelled: ids are parameters, required not to be in use already.
- Browser storage and JSON encoding are not modelled: the `currentUser` entry is one `Option<User>` field.
- `URL.createObjectURL` is not modelled: object URLs are opaque string parameters. The image preview is left out.
- The logo size shown in KB is floating-point display and is not modelled.
- Presentation is not modelled: `Input`, `Badge`, `Header`, `AuthPage`, the login form, animation and layout.
- `async`/`await` are treated as synchronous calls, since nothing runs concurrently.
- The `catch` branch of the signup form is not modelled: the store's `signup` catches its own error and returns false, so it never throws to the form.
- SignupForm.FirstError: password length is counted in characters, not UTF-16 code units.
- `handleInputChange` takes an arbitrary field name; the model takes one of the form's field names, as an enumeration.
- App.Route: paths are taken as already matched. React Router's case-insensitive matching and trailing-slash handling are not modelled.
- The module-level tables of the identity store are fields of one `AuthStore` object. The aliasing between a profile's embedded `user`/`college` and the table entries is not modelled.
- StudentDashboard.DownloadCertificate: the dashboard's profile is a student profile or none. An admin profile reaching the student dashboard, which the dashboard page prevents, is not modelled.
- Auth.AuthStore.Signup: the role is either admin or student. Other role strings sent by a caller take the student branch, as the code does, but are not representable.
