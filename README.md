# Clinic backend: a Dafny model of the booking, consultation and billing workflow

The system is the REST backend of a small clinic: an Express application over
a MySQL database. Admins manage doctor and staff accounts and the clinic
settings. Staff and doctors register walk-in patients and book appointments.
Doctors record consultations. Payments and invoices are recorded at booking
time, when a consultation is saved, or on request.

This project models the handlers that change or read that state, together
with the helpers and middleware they rely on. The database is a value
`Database.Tables`: one sequence of rows per table and one auto-increment
counter per table. The class `Database.Clinic` holds the same tables as
fields. Each handler appears twice:

- a function of the tables before the request (`AppointmentController.Book`,
  `DoctorController.Save`, `AdminController.EditStaff`, ...) that returns the
  HTTP status and the tables after it;
- a method that performs the handler's queries one by one on a `Clinic`. Its
  `ensures` says that the status and the new state are exactly what that
  function gives.

Lemmas then state what each function promises: its refusals and when they
happen, the rows it adds or rewrites, what it leaves alone, and the
invariants it keeps:

- one live appointment per slot;
- invoices numbered INV-000001, INV-000002, ... in row order;
- one consultation per appointment;
- unique patient mobiles;
- unique doctor credentials;
- unique login emails;
- every id below its counter.

The modules follow the source files:

| module | source |
|---|---|
| `ResponseHelper` | `src/utils/response.helper.js` (`paginate`, `formatTime`) |
| `RoleMiddleware` | `src/middleware/role.middleware.js` |
| `UploadMiddleware` | `src/middleware/upload.middleware.js` |
| `AppointmentController` | `src/controllers/appointment.controller.js` |
| `StaffController` | `src/controllers/staff.controller.js` |
| `PatientController` | `src/controllers/patient.controller.js` |
| `DoctorController` | `src/controllers/doctor.controller.js` |
| `PaymentController` | `src/controllers/payment.controller.js` |
| `AdminController` | `src/controllers/admin.controller.js` |

Shared pieces:

- `Records`: the row types.
- `Database`: the tables, SQL `SELECT ... LIMIT 1`, `UPDATE ... WHERE` and `DELETE ... WHERE`, and the `Clinic` class.
- `Registry`: patient lookup, registration and mobile normalisation.
- `Scheduling`: appointment slots.
- `Billing` and `Ledger`: invoice numbers and the payment and invoice inserts.
- `History`: the consultation-history ordering and cap.
- `Settings`: the dynamic partial `UPDATE clinic_settings`.
- `Text`: the JavaScript string built-ins the handlers use (`parseInt`, `split`, `padStart`, `replace(/\D/g, '')`, `trim`, `path.extname`).

Conventions:

- Ids are natural numbers. Auto-increment ids start at 1. The id 0 stands for
  a NULL reference, which matches no row.
- A request text field given as the empty string stands for a missing,
  JavaScript-falsy value.
- The admin handlers write absent fields as NULL, so their fields are
  `Option<string>`.
- A lookup takes the first matching row in table order. `UPDATE` and `DELETE`
  act on every matching row.
- Things the model cannot compute are parameters:
  - the current date;
  - `formatDate`;
  - the password hash;
  - for the booking handler's swallowed billing block, whether it fails (`AppointmentController.BillingFault`).

## Model

| member | source | states |
|---|---|---|
| Records.OrNull | src/controllers/patient.controller.js:61 | `value \|\| null`: NULL exactly for a missing value, otherwise the value |
| Records.OrDefault | src/controllers/patient.controller.js:61 | `value \|\| fallback`: the value when present, else the fallback |
| Records.ParseStatus | src/controllers/appointment.controller.js:139-142 | a name is accepted only as one of the four statuses, and then names that status |
| Records.ParseStatusName | src/controllers/appointment.controller.js:139-142 | each of the four status names is read back as its status |
| ResponseHelper.PaginateParsed | src/utils/response.helper.js:29-35 | parsed page and limit give the limit and offset (page - 1) * limit; a NaN page or limit gives a NaN offset |
| ResponseHelper.PaginateNumbers | src/utils/response.helper.js:29-35 | numbers passed as their decimal text paginate to those numbers |
| ResponseHelper.PaginateDefaults | src/utils/response.helper.js:29 | the defaults give limit 10, offset 0 |
| ResponseHelper.PaginateEnds | src/utils/response.helper.js:30 | page 1 starts at row 0; page 0 is not clamped and starts at -limit |
| ResponseHelper.PaginateAdjacent | src/utils/response.helper.js:30 | page p + 1 starts exactly where page p ends |
| ResponseHelper.PageOfRow | src/utils/response.helper.js:30 | with a positive limit every row lies in exactly one page's window, page i / limit + 1 |
| ResponseHelper.FormatTime | src/utils/response.helper.js:45-60 | null exactly for an absent or empty time; a time without AM or PM is returned as it is |
| ResponseHelper.Hour24Injective | src/utils/response.helper.js:54-55 | the 12-to-24-hour conversion maps 1..12 x {AM, PM} into 0..23 and is undone by its inverse |
| ResponseHelper.Hour24Onto | src/utils/response.helper.js:54-55 | every 24-hour clock hour is reached |
| ResponseHelper.Hour24Cases | src/utils/response.helper.js:54-55 | 12 AM is 0, 12 PM is 12, h PM is h + 12 below 12, h AM is h |
| ResponseHelper.FormatTimeOfPieces | src/utils/response.helper.js:48-57 | the result is the padded converted hour, the minutes piece and ":00" |
| ResponseHelper.PaddedHour | src/utils/response.helper.js:57 | a padded hour 0..23 is two digits that parse back to the hour |
| ResponseHelper.FormatTimeWellFormed | src/utils/response.helper.js:48-57 | "H:MM AM/PM" with H in 1..12 becomes the two-digit 24-hour hour, the minutes and ":00" |
| ResponseHelper.FormatTimeGluedMarker | src/utils/response.helper.js:48-57 | a marker glued to the minutes ("9:30PM") is not honoured: the hour is kept and the marker ends up in the minutes |
| ResponseHelper.FormatTimeHourAndRest | src/utils/response.helper.js:48-57 | a one-token time with AM/PM in it keeps its hour unconverted (only padded) and its whole rest after the first ':' |
| ResponseHelper.FormatTimeOneToken | src/utils/response.helper.js:48-57 | a one-token input has no modifier, so its hour is only padded |
| RoleMiddleware.AuthorizeRoles | src/middleware/role.middleware.js:6-24 | no user gives 401; a role outside the list gives 403; otherwise the request passes |
| RoleMiddleware.RequireRole | src/middleware/role.middleware.js:27-57 | a single-role guard passes exactly its role and refuses the rest with 403 |
| RoleMiddleware.SingleRoleGuards | src/middleware/role.middleware.js:27-57 | isAdmin, isStaff and isDoctor each pass exactly ADMIN, STAFF or DOCTOR |
| RoleMiddleware.AuthorizeAdminIsAdmin | src/middleware/role.middleware.js:6-35 | for an authenticated user, authorizeRoles('ADMIN') and isAdmin decide alike |
| RoleMiddleware.AuthorizeMonotone | src/middleware/role.middleware.js:15-20 | widening the allowed list never turns a pass into a refusal |
| UploadMiddleware.DestinationFolder | src/middleware/upload.middleware.js:16-24 | images exactly for `image/` types, documents exactly for PDF, others otherwise |
| UploadMiddleware.FolderNamesDistinct | src/middleware/upload.middleware.js:18-24 | a folder name identifies its folder |
| UploadMiddleware.AcceptedNeverOthers | src/middleware/upload.middleware.js:42-57 | every file the filter admits is stored under images or documents, under documents exactly when it is a PDF |
| UploadMiddleware.RoutedButRefused | src/middleware/upload.middleware.js:42-57 | some `image/` types get a folder but are refused by the filter |
| UploadMiddleware.StoredNameKeepsExtension | src/middleware/upload.middleware.js:33-38 | the stored file name keeps the original extension |
| UploadMiddleware.HandleUploadError | src/middleware/upload.middleware.js:75-94 | every upload error becomes a 400; no error passes on |
| UploadMiddleware.UploadErrorMessages | src/middleware/upload.middleware.js:76-91 | the size limit has its own message; any other error reports its own message |
| Text.ParseIntText | src/utils/response.helper.js:30-32 | `parseInt(String(n))` gives n back, negatives included |
| Text.SplitAtFirst | src/utils/response.helper.js:50-51 | `split` at a separator yields the text before the first separator as its first piece |
| Text.PadStart | src/utils/response.helper.js:57 | `padStart` fills on the left up to the width and never truncates |
| Text.DigitsOnlyIdempotent | src/controllers/patient.controller.js:48 | stripping non-digits twice is stripping once |
| Text.ExtNameOfSuffixed | src/controllers/doctor.controller.js:888 | `path.extname` of a plain name with one extension is that extension |
| Text.TextLeTransitive | src/controllers/doctor.controller.js:292 | text order on dates and times is transitive |
| Registry.NormalizeMobile | src/controllers/patient.controller.js:48-51 | the input's digits, exactly when there are ten of them |
| Registry.NormalizeIdempotent | src/controllers/staff.controller.js:185-188 | a normalised mobile normalises to itself |
| Registry.NormalizeIgnoresSeparators | src/controllers/staff.controller.js:185 | separators inserted anywhere do not change the normalised mobile |
| Registry.PatientByMobile | src/controllers/patient.controller.js:53-56 | the first patient whose stored mobile equals the text exactly; none exactly when no patient has it |
| Registry.PatientById | src/controllers/patient.controller.js:78-82 | the first patient with the id; none exactly when no patient has it |
| Registry.NewPatient | src/controllers/patient.controller.js:58-62 | a new patient has no visits and no last visit, a NULL age and address when missing, and gender 'Male' when missing |
| Registry.BumpVisits | src/controllers/appointment.controller.js:80-83 | every patient with the id gains one visit and last visit = date; the others are unchanged |
| Registry.FindOrAddPatient | src/controllers/appointment.controller.js:48-68 | the booking's patient lookup-or-insert leaves the tables as `ResolvePatient` says |
| Registry.ResolvePatientCases | src/controllers/appointment.controller.js:48-68 | a given patient id is used as is; else the first patient with that exact mobile; else exactly one new patient under the next id |
| Registry.ResolvePatientAppends | src/controllers/appointment.controller.js:48-68 | resolution only appends to the patient table, keeps every id between 1 and the counter, and a walk-in's resolved id names a patient with the mobile |
| Registry.ResolveKeepsMobilesUnique | src/controllers/appointment.controller.js:48-68 | resolution never gives two patients the same mobile |
| Registry.SearchByMobile | src/controllers/patient.controller.js:12-31 | 400 exactly for a missing mobile; found exactly when a stored mobile equals the query, and then the first such patient |
| Registry.SearchIsExact | src/controllers/patient.controller.js:16-19 | "98765-43210" does not find a patient stored as 9876543210; the digits do |
| Registry.AddPatient | src/controllers/staff.controller.js:176-210 | the handler leaves the status and tables that `RegisterPatient` gives |
| Registry.RegisterPatientCases | src/controllers/staff.controller.js:180-200 | refused and unchanged exactly for a missing name or mobile, a mobile without ten digits, or digits already stored; otherwise exactly one patient appended with those digits |
| Registry.RegisterKeepsMobilesUnique | src/controllers/staff.controller.js:190-194 | registration never gives two patients the same mobile |
| Scheduling.BookFreeSlot | src/controllers/appointment.controller.js:37-46 | appending an appointment for a slot nobody holds keeps one live appointment per slot |
| Scheduling.SetStatus | src/controllers/appointment.controller.js:144 | every row with the id takes the status; the others are unchanged |
| Scheduling.SetStatusKeepsHeldSlots | src/controllers/appointment.controller.js:144 | a status other than Cancelled never frees a held slot |
| Scheduling.CancelKeepsSlotsUnique | src/controllers/appointment.controller.js:144 | cancelling keeps one live appointment per slot |
| Scheduling.Enter | src/controllers/appointment.controller.js:73-83 | one Waiting appointment appended under the next id, and the patient's visit count and last visit updated |
| Scheduling.EnterAppointment | src/controllers/appointment.controller.js:73-83 | the insert and visit update leave the tables as `Enter` says and return the new id |
| Scheduling.EnterKeepsSlotsUnique | src/controllers/appointment.controller.js:37-77 | entering an appointment for a free slot keeps one live appointment per slot |
| Scheduling.EnterKeepsValid | src/controllers/appointment.controller.js:73-83 | entering keeps every id below its counter |
| Billing.InvoiceNumberRoundTrip | src/controllers/payment.controller.js:230-231 | reading an invoice number gives back its count |
| Billing.InvoiceNumberInjective | src/controllers/payment.controller.js:230-231 | distinct counts give distinct invoice numbers |
| Billing.InvoiceNumberShape | src/controllers/appointment.controller.js:93-94 | below 1000000 the number is "INV-" and six digits |
| Billing.NumberedInvoiceReadsPosition | src/controllers/payment.controller.js:230-236 | in a numbered table row k's number reads as k + 1 |
| Billing.NumberedInvoicesDistinct | src/controllers/payment.controller.js:230-236 | a numbered table has pairwise distinct numbers |
| Billing.AppendKeepsNumbered | src/controllers/payment.controller.js:230-236 | appending a row numbered from the row count keeps the numbering |
| Billing.PaymentAmount | src/controllers/payment.controller.js:155 | the given amount unless missing, NaN or zero, otherwise the fee |
| Ledger.WithPayment | src/controllers/appointment.controller.js:88-91 | exactly one Completed payment appended under the next id; nothing else changes |
| Ledger.WithInvoice | src/controllers/appointment.controller.js:93-98 | exactly one Generated invoice appended, numbered from the invoice count; nothing else changes |
| Ledger.WithInvoiceKeepsNumbered | src/controllers/payment.controller.js:230-236 | an invoice insert keeps the table numbered INV-000001, INV-000002, ... |
| Ledger.InsertPayment | src/controllers/appointment.controller.js:88-91 | the payment insert on the live tables leaves exactly the tables `WithPayment` gives |
| Ledger.InsertInvoice | src/controllers/payment.controller.js:229-236 | the count-then-insert on the live tables leaves exactly the tables `WithInvoice` gives |
| Ledger.LedgerKeepsValid | src/controllers/appointment.controller.js:88-98 | payment and invoice inserts keep every id below its counter |
| AppointmentController.CreateAppointment | src/controllers/appointment.controller.js:8-127 | the handler's status and tables are those `Book` gives |
| AppointmentController.ChargeBooking | src/controllers/appointment.controller.js:85-100 | the swallowed billing block leaves the tables `Charge` gives |
| AppointmentController.BookRefusals | src/controllers/appointment.controller.js:24-46 | 400 and no change exactly for a missing field or a held slot; otherwise 201 |
| AppointmentController.AdmitAddsAppointment | src/controllers/appointment.controller.js:70-77 | one Waiting appointment for the slot and the resolved patient, with the fee (0 when none is given) |
| AppointmentController.AdmitCountsVisit | src/controllers/appointment.controller.js:80-83 | the resolved patient gains one visit and last visit = booking date; the others are unchanged |
| AppointmentController.AdmitBilling | src/controllers/appointment.controller.js:85-100 | a positive fee gives one Cash payment and, unless a fault stops it, one numbered invoice; a fault still answers 201 |
| AppointmentController.BookKeepsSlotsUnique | src/controllers/appointment.controller.js:37-46 | booking never gives a held slot to a second appointment |
| AppointmentController.AdmitKeepsSlotsUnique | src/controllers/appointment.controller.js:37-77 | an admitted booking keeps one live appointment per slot |
| AppointmentController.BookKeepsInvoicesNumbered | src/controllers/appointment.controller.js:93-98 | booking keeps the invoice numbering |
| AppointmentController.AdmitKeepsInvoicesNumbered | src/controllers/appointment.controller.js:93-98 | an admitted booking keeps the invoice numbering |
| AppointmentController.BookKeepsValid | src/controllers/appointment.controller.js:48-98 | booking keeps every id below its counter |
| AppointmentController.AdmitKeepsValid | src/controllers/appointment.controller.js:48-98 | an admitted booking keeps every id below its counter |
| AppointmentController.ChargeKeepsValid | src/controllers/appointment.controller.js:85-100 | the billing block keeps every id below its counter |
| AppointmentController.UpdateAppointmentStatus | src/controllers/appointment.controller.js:130-152 | the handler's status and tables are those `ChangeStatus` gives |
| AppointmentController.ChangeStatusCases | src/controllers/appointment.controller.js:135-146 | 400 and no change exactly for a name outside the four; otherwise every row with the id takes it, answered 200 even for an unknown id |
| AppointmentController.CancellingKeepsSlotsUnique | src/controllers/appointment.controller.js:144 | cancelling keeps one live appointment per slot |
| AppointmentController.StatusChangeCanDoubleBook | src/controllers/appointment.controller.js:139-144 | reviving a cancelled appointment whose slot was rebooked leaves two live appointments in one slot |
| StaffController.StaffCreateAppointment | src/controllers/staff.controller.js:290-400 | the handler's status and tables are those `StaffBook` gives |
| StaffController.StaffBookCases | src/controllers/staff.controller.js:305-337 | refused and unchanged exactly for a missing field, a given mobile without ten digits (even with a patient id), or a held slot; never a payment or invoice |
| StaffController.StaffAdmitAddsAppointment | src/controllers/staff.controller.js:364-369 | one Waiting appointment with no fee for the resolved patient |
| StaffController.StaffBookKeepsSlotsUnique | src/controllers/staff.controller.js:327-337 | staff booking never gives a held slot to a second appointment |
| StaffController.LookupAfterBump | src/controllers/staff.controller.js:372-375 | the visit update keeps every mobile, so lookups by mobile are unchanged |
| StaffController.StaffRebookReusesPatient | src/controllers/staff.controller.js:342-361 | a second walk-in booking with the same mobile reuses the patient the first created and adds none |
| StaffController.WalkInSettles | src/controllers/staff.controller.js:339-361 | an admitted booking without a patient id adds one appointment, and afterwards a patient with the mobile exists whose id is that appointment's patient |
| StaffController.WalkInFound | src/controllers/staff.controller.js:346-352 | when the mobile is already registered, no patient is added and the new appointment takes the first registered patient's id |
| StaffController.Rewrite | src/controllers/staff.controller.js:449-452 | every patient with the id takes the new details; the others are unchanged |
| StaffController.UpdatePatient | src/controllers/staff.controller.js:429-465 | the handler's status and tables are those `EditPatient` gives |
| StaffController.EditPatientCases | src/controllers/staff.controller.js:434-456 | 400 for a missing field, a bad mobile, or another patient holding it (checked before existence); then 404 for an unknown id; otherwise the rows with the id take the details |
| StaffController.EditKeepsMobilesUnique | src/controllers/staff.controller.js:443-452 | with unique ids an edit never gives two patients the same mobile |
| StaffController.DeletePatient | src/controllers/staff.controller.js:468-490 | the handler's status and tables are those `RemovePatient` gives |
| StaffController.RemovePatientCases | src/controllers/staff.controller.js:473-482 | 400 while an appointment references the patient, 404 for an unknown id, both unchanged; otherwise the rows with the id go and the rest stay |
| StaffController.RemoveKeepsReferences | src/controllers/staff.controller.js:473-478 | removal never leaves an appointment without its patient |
| PatientController.AddWalkInPatient | src/controllers/patient.controller.js:40-71 | the handler is the shared registration with no creator recorded |
| PatientController.WalkInCases | src/controllers/patient.controller.js:44-62 | a created walk-in holds the ten digits, no creator, 'Male' and NULLs for missing fields; stored digits are refused unchanged |
| PatientController.Visit | src/controllers/patient.controller.js:85-90 | a consultation gets a history row exactly when its appointment and doctor exist, carrying their date, time, reason and doctor name |
| PatientController.VisitsMeaning | src/controllers/patient.controller.js:85-93 | the history lists exactly the patient's consultations whose appointment and doctor exist, one row per consultation at most |
| PatientController.NewestVisitFirst | src/controllers/patient.controller.js:92 | a consultation added last heads the history; the rest keep their order |
| PatientController.PatientRecordMeaning | src/controllers/patient.controller.js:74-98 | 404 exactly for an unknown id; otherwise the first patient with the id and exactly their joinable consultations |
| PatientController.SavedConsultationHeadsRecord | src/controllers/patient.controller.js:85-93 | a newly saved joinable consultation is the first history row of its patient's record |
| History.VisitLabel | src/controllers/doctor.controller.js:332 | 'Follow-up' exactly for a visit number above 1 |
| History.RankedTotal | src/controllers/doctor.controller.js:292 | any two history entries are ordered one way or the other |
| History.RankedTransitive | src/controllers/doctor.controller.js:292 | the date, time, id order is transitive |
| History.Insert | src/controllers/doctor.controller.js:292 | inserting keeps the entries, adding one |
| History.InsertSorted | src/controllers/doctor.controller.js:292 | inserting into a sorted list keeps it sorted |
| History.SortHistory | src/controllers/doctor.controller.js:292 | sorting is a permutation |
| History.SortHistorySorted | src/controllers/doctor.controller.js:292 | the sorted list is ordered by date, time and id, newest first |
| History.TopEntriesSorted | src/controllers/doctor.controller.js:292-293 | the listed entries are in order, ten unless there are fewer candidates |
| History.TopEntriesDrawn | src/controllers/doctor.controller.js:292-293 | the listed entries are drawn from the candidates, all of them when ten or fewer |
| History.TopEntriesBest | src/controllers/doctor.controller.js:292-293 | a left-out candidate ranks no earlier than any listed entry |
| History.TopEntriesMember | src/controllers/doctor.controller.js:292-293 | a listed entry is a candidate |
| History.TopEntriesLeftOut | src/controllers/doctor.controller.js:292-293 | a candidate is left out only when ten entries ranked before it are listed |
| DoctorController.DoctorIdOf | src/controllers/doctor.controller.js:8-11 | the id of the first doctor linked to the user; none for a NULL link or no such doctor |
| DoctorController.ScopeOf | src/controllers/doctor.controller.js:248-255 | ADMIN and STAFF reach every appointment; others only their own profile's; none without a profile |
| DoctorController.RewriteNotes | src/controllers/doctor.controller.js:412-431 | the consultation with the id takes the seven clinical fields; everything else is kept |
| DoctorController.SetLastVisit | src/controllers/doctor.controller.js:478-481 | the patient with the id gets last visit = today; the others are unchanged |
| DoctorController.WriteConsultation | src/controllers/doctor.controller.js:402-455 | the update or insert leaves the tables `Upsert` gives |
| DoctorController.FinishConsultation | src/controllers/doctor.controller.js:457-481 | completion, fee payment and last-visit update leave the tables `Finish` gives |
| DoctorController.BillFee | src/controllers/doctor.controller.js:464-475 | the guarded payment insert leaves the tables `Bill` gives |
| DoctorController.SaveConsultation | src/controllers/doctor.controller.js:353-497 | the handler's status and tables are those `Save` gives |
| DoctorController.SaveAccess | src/controllers/doctor.controller.js:357-389 | 404 and no change exactly for a caller without reach or no reachable appointment with the id; otherwise 200 |
| DoctorController.UpsertKeepsOnePerAppointment | src/controllers/doctor.controller.js:402-455 | the upsert never adds a second consultation for an appointment |
| DoctorController.SaveKeepsOnePerAppointment | src/controllers/doctor.controller.js:402-455 | saving keeps at most one consultation per appointment |
| DoctorController.UpsertRewrites | src/controllers/doctor.controller.js:410-432 | with a consultation present its clinical fields are rewritten, visit number and references kept, and no row added |
| DoctorController.UpsertInserts | src/controllers/doctor.controller.js:395-455 | with none, exactly one is appended, numbered one past the patient's consultations with any doctor |
| DoctorController.SaveUpsert | src/controllers/doctor.controller.js:391-455 | a successful save writes the upsert for the appointment's patient, by the caller's doctor profile or the appointment's doctor |
| DoctorController.SaveCompletes | src/controllers/doctor.controller.js:457-481 | after a save every row with the id is Completed (a Cancelled one included) and the patient's last visit is today |
| DoctorController.SavePayment | src/controllers/doctor.controller.js:464-475 | one Cash payment of the fee, dated the appointment date, exactly when the fee is positive and no payment references it; never an invoice |
| DoctorController.SavePaysOnce | src/controllers/doctor.controller.js:464-475 | a save adds at most one payment, and afterwards a positive fee is paid |
| DoctorController.SaveTwiceAddsAtMostOnePayment | src/controllers/doctor.controller.js:464-475 | saving twice adds at most one payment in all and no invoice |
| DoctorController.SaveKeepsValid | src/controllers/doctor.controller.js:402-481 | saving keeps every id below its counter |
| DoctorController.FinishKeepsValid | src/controllers/doctor.controller.js:457-481 | the completion step keeps every id below its counter |
| DoctorController.HistoryRow | src/controllers/doctor.controller.js:283-288 | a history row exists exactly when the appointment and doctor join, and carries the id, label and three notes |
| DoctorController.Candidates | src/controllers/doctor.controller.js:283-291 | exactly the patient's joinable consultations other than the current one |
| DoctorController.HistoryMeaning | src/controllers/doctor.controller.js:283-294 | newest first, at most ten, empty while the appointment has no consultation, only the patient's other consultations, a candidate left out only behind ten better ones |
| DoctorController.ConsultationDataMeaning | src/controllers/doctor.controller.js:244-342 | opens exactly for a reachable appointment whose patient exists, showing it, its patient, the history and its consultation |
| DoctorController.AddTemplate | src/controllers/doctor.controller.js:1058-1080 | the handler's status and tables are those `NewTemplate` gives |
| DoctorController.NewTemplateCases | src/controllers/doctor.controller.js:1063-1070 | refused and unchanged exactly for a missing field; otherwise one template owned by the caller's profile |
| DoctorController.DeleteTemplate | src/controllers/doctor.controller.js:1082-1095 | the handler's status and tables are those `RemoveTemplate` gives |
| DoctorController.RemoveTemplateOwnership | src/controllers/doctor.controller.js:1085-1087 | only the caller's own template with the id is deleted; without a profile nothing is |
| DoctorController.StripUploadsPrefixMeaning | src/controllers/doctor.controller.js:868-874 | exactly one prefix is removed, `/uploads/` first; other URLs are kept |
| DoctorController.MediaFolderIsDestination | src/controllers/doctor.controller.js:541-544 | the media URL's folder is the folder the middleware stored the file in |
| DoctorController.MediaUrlResolves | src/controllers/doctor.controller.js:972-980 | a media URL, stripped for serving, is the stored folder and file name |
| DoctorController.ReportFolderAgrees | src/controllers/doctor.controller.js:818-819 | for every admitted type the report folder is the stored folder |
| DoctorController.InlineTypeOfUpload | src/controllers/doctor.controller.js:989-991 | a PDF is served as PDF and every image as JPEG |
| DoctorController.ExtensionContentType | src/controllers/doctor.controller.js:890-902 | the download type for .pdf, .jpg/.jpeg, .png, .gif and .webp, octet-stream otherwise |
| DoctorController.DownloadTypeByExtension | src/controllers/doctor.controller.js:887-902 | a plain name is served by the type of its lower-cased extension; a missing or empty name is served as octet-stream |
| DoctorController.UpdatePrintPreferences | src/controllers/doctor.controller.js:1167-1257 | the handler is the partial settings update over the print-layout fields |
| Settings.SuppliedMeaning | src/controllers/admin.controller.js:667-722 | each assignment sets a listed field to the body's value; every supplied field is assigned; none exactly when none is supplied |
| Settings.CollectUpdates | src/controllers/admin.controller.js:667-718 | the chain of presence tests yields the supplied assignments in field order |
| Settings.AssignSupplied | src/controllers/admin.controller.js:724-729 | applying them gives every supplied field the body's value and keeps the other columns |
| Settings.AssignWhere | src/controllers/admin.controller.js:726-729 | rows with the id take the assignments; the others are unchanged |
| Settings.WriteSettings | src/controllers/admin.controller.js:648-739 | the handler's status and tables are those `UpdateSettings` gives |
| Settings.UpdateSettingsMeaning | src/controllers/admin.controller.js:720-729 | 400 and no change exactly when nothing is supplied; otherwise row 1 takes the supplied values and nothing else changes |
| PaymentController.RecordPayment | src/controllers/payment.controller.js:137-176 | the handler's status and tables are those `Record` gives |
| PaymentController.RecordCases | src/controllers/payment.controller.js:139-160 | 400 exactly without an id or amount, 404 exactly for an unknown appointment, both unchanged; 201 appends one payment and changes nothing else |
| PaymentController.RecordTwiceRecordsTwice | src/controllers/payment.controller.js:157-160 | with no duplicate check, recording twice leaves two new payments for the appointment |
| PaymentController.GenerateInvoice | src/controllers/payment.controller.js:206-255 | the handler's status and tables are those `Generate` gives |
| PaymentController.GenerateRefusals | src/controllers/payment.controller.js:210-224 | 400 exactly without an id, 404 exactly when no appointment with the id joins its patient and doctor; unchanged |
| PaymentController.GenerateAppends | src/controllers/payment.controller.js:226-236 | one invoice of the fee, dated the appointment date, numbered one past the count; nothing else changes |
| PaymentController.GenerateKeepsNumbered | src/controllers/payment.controller.js:230-236 | generating keeps the invoice numbering |
| PaymentController.GenerateTwiceGeneratesTwo | src/controllers/payment.controller.js:230-236 | generating twice leaves two new invoices for the appointment, with different numbers |
| PaymentController.SyncTargets | src/controllers/payment.controller.js:293-298 | exactly the Completed appointments with a positive fee and no payment |
| PaymentController.SyncRows | src/controllers/payment.controller.js:301-307 | one Cash payment of the fee, dated the appointment date, per target, numbered consecutively |
| PaymentController.SyncPayments | src/controllers/payment.controller.js:291-315 | the loop leaves the count and tables `Sync` gives |
| PaymentController.SyncAppends | src/controllers/payment.controller.js:300-309 | existing payments are kept, other tables untouched, and the count is the number added |
| PaymentController.SyncPaysTargets | src/controllers/payment.controller.js:293-307 | exactly one payment per unpaid completed appointment |
| PaymentController.SyncPaysAll | src/controllers/payment.controller.js:293-307 | afterwards every completed appointment with a positive fee is paid |
| PaymentController.NothingUnpaid | src/controllers/payment.controller.js:293-298 | with nothing unpaid the selection is empty |
| PaymentController.SyncTwiceFindsNothing | src/controllers/payment.controller.js:293-307 | a second sync right after the first adds nothing and changes nothing |
| PaymentController.RecordKeepsValid | src/controllers/payment.controller.js:157-160 | recording keeps every id below its counter |
| PaymentController.GenerateKeepsValid | src/controllers/payment.controller.js:233-236 | generating keeps every id below its counter |
| PaymentController.SyncKeepsValid | src/controllers/payment.controller.js:301-307 | the sync keeps every id below its counter |
| AdminController.StatusOrActive | src/controllers/admin.controller.js:121 | 'Active' for a status left out, otherwise the status as given |
| AdminController.RewriteAccount | src/controllers/admin.controller.js:193-205 | the login with the id takes email, name and status, and the password only when one is given |
| AdminController.SetUserStatus | src/controllers/admin.controller.js:257 | the login with the id takes the status; the others are unchanged |
| AdminController.AddDoctor | src/controllers/admin.controller.js:119-164 | the handler's status and tables are those `NewDoctor` gives |
| AdminController.InsertDoctor | src/controllers/admin.controller.js:139-153 | one DOCTOR user with the hashed password and one doctor profile linked to it are appended; the specialization defaults to General Medicine and a missing fee to 0; nothing else changes |
| AdminController.NewDoctorCases | src/controllers/admin.controller.js:121-153 | 400 and no change exactly for a blank required field or a doctor with the username or email; otherwise one DOCTOR login (hashed password) and one linked profile, with fee 0, "General Medicine" and "Active" as defaults |
| AdminController.NewDoctorKeepsCredentialsUnique | src/controllers/admin.controller.js:128-136 | adding a doctor keeps doctor usernames and emails unique |
| AdminController.RewriteDoctor | src/controllers/admin.controller.js:178-189 | profiles with the id take the fields as given, and the fee only when one is given |
| AdminController.UpdateDoctor | src/controllers/admin.controller.js:167-217 | the handler's status and tables are those `EditDoctor` gives |
| AdminController.EditDoctorCases | src/controllers/admin.controller.js:170-206 | 404 and no change exactly for an unknown id; otherwise the fee and the password are kept when not given, and other profiles and logins are untouched |
| AdminController.DeleteDoctor | src/controllers/admin.controller.js:220-244 | the handler's status and tables are those `RemoveDoctor` gives |
| AdminController.RemoveDoctorCases | src/controllers/admin.controller.js:225-236 | 404 and no change exactly for an unknown id; otherwise no profile with the id and no login linked to it remain, and all else does |
| AdminController.SetDoctorStatus | src/controllers/admin.controller.js:252 | profiles with the id take the status; the others are unchanged |
| AdminController.ToggleDoctorStatus | src/controllers/admin.controller.js:247-266 | the handler's status and tables are those `SwitchDoctorStatus` gives |
| AdminController.SwitchDoctorStatusMeaning | src/controllers/admin.controller.js:250-258 | always 200; the profiles with the id and the login linked to the first of them take the status; nothing else changes |
| AdminController.AddStaff | src/controllers/admin.controller.js:453-494 | the handler's status and tables are those `NewStaff` gives |
| AdminController.InsertStaff | src/controllers/admin.controller.js:467-480 | one STAFF user with the hashed password and one staff profile linked to it, its username the e-mail, are appended; nothing else changes |
| AdminController.NewStaffCases | src/controllers/admin.controller.js:455-480 | 400 and no change exactly for a blank field or a login with the email; otherwise one STAFF login and one linked profile whose username is the email |
| AdminController.NewStaffKeepsEmailsUnique | src/controllers/admin.controller.js:461-465 | adding staff keeps login emails unique |
| AdminController.FinalStatus | src/controllers/admin.controller.js:518 | the given status, else the existing one, else 'Active' |
| AdminController.RewriteStaff | src/controllers/admin.controller.js:521-524 | staff with the id take name, mobile, username = email and the final status |
| AdminController.UpdateStaff | src/controllers/admin.controller.js:497-573 | the handler's status and tables are those `EditStaff` gives |
| AdminController.EditStaffCases | src/controllers/admin.controller.js:500-541 | 400 exactly for a blank name, mobile or email or a status outside Active/Inactive; 404 exactly for an unknown id; otherwise the final status stays allowed, the linked login takes the name and e-mail, and its password becomes the hash of a non-blank given one and is kept otherwise |
| AdminController.DeleteStaff | src/controllers/admin.controller.js:576-597 | the handler's status and tables are those `RemoveStaff` gives |
| AdminController.RemoveStaffCases | src/controllers/admin.controller.js:580-589 | 404 and no change exactly for an unknown id; otherwise no staff with the id and no login linked to it remain, and all else does |
| AdminController.SetStaffStatus | src/controllers/admin.controller.js:605 | staff with the id take the status; the others are unchanged |
| AdminController.ToggleStaffStatus | src/controllers/admin.controller.js:600-618 | the handler's status and tables are those `SwitchStaffStatus` gives |
| AdminController.SwitchStaffStatusMeaning | src/controllers/admin.controller.js:603-610 | always 200; the staff with the id and the login linked to the first of them take the status; nothing else changes |
| AdminController.NewDoctorKeepsValid | src/controllers/admin.controller.js:141-153 | adding a doctor keeps every id below its counter |
| AdminController.NewStaffKeepsValid | src/controllers/admin.controller.js:471-480 | adding staff keeps every id below its counter |
| AdminController.RemoveDoctorKeepsValid | src/controllers/admin.controller.js:231-236 | deleting a doctor keeps every id below its counter |
| AdminController.RemoveStaffKeepsValid | src/controllers/admin.controller.js:585-589 | deleting staff keeps every id below its counter |
| AdminController.GetClinicSettings | src/controllers/admin.controller.js:625-645 | the handler's row and tables are those `ClinicSettings` gives |
| AdminController.ClinicSettingsMeaning | src/controllers/admin.controller.js:627-639 | the row shown is the first row; a "My Clinic" row is inserted only into an empty table; showing again changes nothing |
| AdminController.UpdateClinicSettings | src/controllers/admin.controller.js:648-739 | the handler is the partial settings update over the clinic fields |
| AdminController.ClinicPdfUrlMisplaced | src/controllers/admin.controller.js:749 | an admitted PDF is stored under documents, but the URL as written points under images |
| AdminController.ClinicFileUrlCorrected | src/controllers/admin.controller.js:749 | for admitted files the corrected URL differs from the written one exactly for PDFs, which go under documents |
| AdminController.UploadColumn | src/controllers/admin.controller.js:751 | signature_url exactly for type 'signature', logo_url otherwise |
| AdminController.UploadClinicFile | src/controllers/admin.controller.js:742-764 | the handler as written: its status and tables are those `StoreClinicFile` gives, recording the `images` URL for every file type |
| AdminController.StoreClinicFileMeaning | src/controllers/admin.controller.js:744-756 | 400 and no change exactly without a file; otherwise settings row 1 records `/uploads/images/<file>`, whatever the file's type, in the chosen column and nothing else changes |
| AdminController.RecordClinicFileMeaning | src/controllers/admin.controller.js:753-756 | the update sets only the chosen column of settings row 1; every other row, column and table is unchanged |
| AdminController.StoreClinicFileCorrectedMeaning | src/controllers/admin.controller.js:744-756 | with the URL corrected, the handler answers as written, tables agree for every admitted non-PDF file, and a PDF is recorded under `documents` |

## Left out

- Database failures, the 500 answers and the `catch` blocks are not modelled. So are the schema's foreign keys, unique keys and defaults, and the `ER_DUP_ENTRY` answers of `updateStaff` that come from them. Every query is taken to succeed, except the booking handler's swallowed billing block, which `AppointmentController.BillingFault` models.
- Response bodies beyond the status are not modelled: the joined rows a handler re-reads and returns, and the messages.
- The read-only listing, dashboard, print and report-listing handlers are not modelled. The `consultation_media` table and its handlers are not modelled either: `uploadConsultationMedia`'s insert, `deleteConsultationMedia`, `deleteReport`, the media access checks, and file existence on disk. Only their URL, folder and content-type rules are (`DoctorController` media section).
- `transcribeSpeech` calls an external service and is not modelled.
- Authentication (`src/middleware/auth.middleware.js`, `src/controllers/auth.controller.js`) is not part of this model. The caller's id and role are parameters.
- The current date, `formatDate` (which relies on `Date` and `toISOString`), bcrypt hashing, `Date.now()` and `Math.random()` are parameters. multer's disk I/O is left out.
- Billing.PaymentAmount: amounts and fees are integers. The model does not capture floating point and treats a non-numeric amount as NaN (`AmountInput.NotANumber`).
- AdminController.NewDoctor: a fee given but not a number (NaN under `parseFloat`) is not modelled. A given fee is an integer.
- AdminController.StatusOrActive: a JSON `null` in an admin request is treated like a field left out. So is `undefined`. The model does not tell them apart.
- DoctorController.Save: the vitals are taken as the already-serialised text `JSON.stringify` produces.
- PatientController.Visits: `ORDER BY c.created_at DESC` is modelled by table position, with later rows newer. Rows saved within the same second, whose database order is unspecified, are not distinguished.
- Joins and lookups use the first row with an id. Tables with duplicate ids are not given the database's full join semantics.
- Text comparison is by character code. Database collations and case-insensitive matching of emails and mobiles are not modelled.
- Scheduling.SlotTaken: slot dates and times are compared as the text the handlers store. The database's TIME and DATE normalisation is not modelled. For example, a MySQL TIME column holds "14:30" (passed through by `formatTime`) and "14:30:00" (from "2:30 PM") as the same value. The model treats them as different slots, so the slot-uniqueness lemmas hold only under text equality of times.
- Concurrency between requests is not modelled: each handler runs alone against the tables.
- PaymentController.SyncPayments: the loop collects the new payment rows and counter locally and writes them to the tables once, after the last row. The handler inserts them one query at a time. With no concurrent request modelled, nothing observes the difference, and the final tables are the same.
- Staff booking stores no fee. The model stores 0, which behaves like NULL in every modelled comparison (`fee > 0`).

## Findings

| source | as written | input that shows it | evidently intended | confidence | as-written member | corrected member |
|---|---|---|---|---|---|---|
| src/controllers/admin.controller.js:749 | `uploadClinicFile` records `/uploads/images/<file>` for every upload, but the upload middleware stores PDFs under `uploads/documents` (src/middleware/upload.middleware.js:20-24) | a logo upload with MIME type `application/pdf`: the filter admits it and it is stored under documents, while the recorded URL names images | record the URL of the folder the file was stored in, as `uploadConsultationMedia` does | medium, not executed | AdminController.ClinicPdfUrlMisplaced | AdminController.ClinicFileUrlCorrected |
