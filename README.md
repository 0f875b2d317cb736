# x_Care clinic booking: a Dafny model

x_Care is a clinic booking application. Patients book a doctor's time slot, cancel or delete
the appointment, and ask for it to be paid. Doctors toggle their availability, cancel
appointments, submit a working schedule for approval and write diagnoses with a medication
bill. The admin adds doctors, cancels appointments, confirms payments and approves
schedules.

This project models the logic underneath that flow:

- the three stored records (doctor, appointment, diagnosis) with their defaults and
  required fields;
- every state-changing handler of the user, doctor and admin controllers;
- the client-side helpers that decide what the pages offer and send: the booking page's
  slot calculators, the schedule editor, the two diagnosis editors, and the appointment
  lists with their date normaliser.

The model is built in layers:

- **Handler functions.** Each backend handler is a function from the stored collections
  before the request (`Backend.Db`) to its reply and the collections after it. Writes made
  before a failure are kept in that after-state.
- **Imperative handlers.** `Clinic.ClinicDb` is the same backend as an object. Each route is
  a method that reads and updates the fields in the handler's own order, and its result and
  new state are proved equal to the handler function's.
- **The clinic invariant.** `Consistency.Consistent` states that booked slots and live
  appointments agree. `Requests.RunKeepsGood` proves that the corrected handlers keep this
  agreement, the stored order and the diagnosis links over any sequence of requests.

Four handlers as written break the invariant; they are listed under Findings.

Modules and files:

| file | module | what it holds |
|---|---|---|
| wrappers.dfy | Wrappers | `Option` |
| seqs.dfy | Seqs | the list operations the handlers use (`filter`, `splice`, index assignment, `reverse`) |
| text.dfy | Text | decimal rendering and padding, `split`, `trim`, `toLowerCase`, `lastIndexOf` |
| calendar.dfy | Calendar | calendar days, the two date keys, instants for the schedule window |
| records.dfy | Records | doctor, appointment and diagnosis records and their creation rules |
| slots.dfy | Slots | `slots_booked` and the three ways its lists are changed |
| payments.dfy | Payments | the appointment payment state machine |
| medications.dfy | Medications | bill totals, the dosage/duration check, medication edits |
| schedule.dfy | Schedule | the schedule request check and the schedule editor |
| availability.dfy | Availability | the booking page's seven-day slot lists |
| views.dfy | AppointmentViews | `slotDateFormat`, the unpaid and paid lists, the buttons per item |
| diagnosis_forms.dfy | DiagnosisForms | the create and detail diagnosis editors |
| backend.dfy | Backend | the stored collections, failures, replies |
| consistency.dfy | Consistency | the booking invariant and the lemmas the handlers' proofs share |
| user_controller.dfy | UserController | registration, booking, patient cancel and delete, payment request |
| doctor_controller.dfy | DoctorController | availability, doctor cancel, schedule request, diagnoses |
| admin_controller.dfy | AdminController | add doctor, admin cancel, dashboard, payment confirmation, approval |
| requests.dfy | Requests | all routes as one request type and the invariant over runs of requests |
| clinic.dfy | Clinic | the imperative `ClinicDb` class |

Inputs the model cannot compute arrive as parameters:

- `validator.isEmail` is `isEmail`.
- `new Date(dateStr)` is `parse`.
- The current instant is `now`; the current hour on the booking page is `nowHour`.
- The bcrypt hash is `hashedPassword`.
- The Cloudinary upload and `JSON.parse` of the address are `imageUrl` and `address`. Each
  is None when the call throws.
- Fresh document ids are `newId`.
- The order `Object.entries` lists a request's keys in is `keys`.

## Model

| member | source | states |
|---|---|---|
| Records.ParseBillStatus | backend/models/diagnosisModel.js:26-30 | a bill status string is accepted iff it is `pending` or `paid`, and the accepted value carries that name |
| Records.ParseBillStatusName | backend/models/diagnosisModel.js:26-30 | every bill status is read back as itself from its stored name |
| Records.NewDoctor | backend/models/doctorModel.js:4-35 | a doctor is created iff all nine required profile fields are non-empty; the new doctor is available, with empty booked slots, approved schedule and pending request, and keeps the given profile |
| Records.NewAppointment | backend/models/appointmentModel.js:4-34 | an appointment is created iff the user id, doctor id, date key, time and user data are present; it starts not cancelled, unpaid (`none`), `pending`, with no diagnosis, at the requested doctor, date and time |
| Records.NewDiagnosis | backend/models/diagnosisModel.js:3-30 | a diagnosis is created iff its three ids and diagnosis text are present and every medication has a name, dosage, duration and numeric price; its bill starts `pending` with the given medications and total |
| Seqs.Without | backend/controllers/userController.js:248 | `filter(e => e != t)` never grows the list and leaves a list without `t` unchanged |
| Seqs.WithoutMembers | backend/controllers/userController.js:285 | after the filter, the members are exactly the old members other than `t` |
| Seqs.WithoutAppended | admin/src/pages/Doctor/DoctorSchedule.jsx:25-28 | appending an absent time and then filtering it out gives back the list |
| Seqs.WithoutNoDuplicates | admin/src/pages/Doctor/DoctorSchedule.jsx:26-28 | filtering keeps a duplicate-free list duplicate-free |
| Seqs.RemoveAt | admin/src/pages/Doctor/DiagnosisDetail.jsx:110-113 | `splice(i, 1)` shortens the list by one, keeps the items before `i` and shifts those after it down by one |
| Seqs.ReplaceAt | admin/src/pages/Doctor/DiagnosisDetail.jsx:323-327 | index assignment keeps the length, puts the new item at `i` and keeps every other item |
| Seqs.Reverse | frontend/src/pages/MyAppointments.jsx:82 | reversal keeps the length |
| Seqs.ReverseAt | frontend/src/pages/MyAppointments.jsx:82 | item `k` of the reversed list is item `k` from the end |
| Seqs.ReverseMultiset | frontend/src/pages/AppointmentHistory.jsx:84 | reversal keeps every item with its count |
| Text.Decimal | frontend/src/pages/Appointment.jsx:54 | a number renders as a non-empty string of digits |
| Text.DecimalValueOfDecimal | frontend/src/pages/Appointment.jsx:54 | reading the rendered digits back gives the number |
| Text.Pad | frontend/src/pages/Appointment.jsx:48-52 | two-digit rendering gives digits, padded to the width when shorter |
| Text.PadValue | frontend/src/pages/Appointment.jsx:48-52 | the padded rendering reads back as the number |
| Text.PadInjective | frontend/src/pages/Appointment.jsx:48-52 | different numbers get different padded renderings |
| Text.Split | frontend/src/pages/MyAppointments.jsx:54 | `split` always gives at least one part |
| Text.SplitLength | frontend/src/pages/MyAppointments.jsx:54-55 | the number of parts is one more than the number of separators |
| Text.SplitAtSeparator | frontend/src/pages/MyAppointments.jsx:54 | splitting `a + sep + b`, where `a` has no separator, gives `a` followed by the parts of `b` |
| Text.TrimStart | backend/controllers/userController.js:16 | the result is a suffix of the input that does not start with white space, and everything dropped is white space |
| Text.TrimEnd | backend/controllers/userController.js:16 | the result is a prefix of the input that does not end with white space, and everything dropped is white space |
| Text.Trim | backend/controllers/userController.js:16-17 | the trimmed string has no white space at either end and is empty iff the input is all white space |
| Text.TrimDropsEdgeSpace | backend/controllers/userController.js:16-17 | the trimmed string is a slice of the input whose dropped prefix and suffix are all white space |
| Text.ToLower | backend/controllers/userController.js:17 | the ASCII part of `toLowerCase`: each A to Z character is lowered and every other character is kept |
| Text.LastIndexOf | backend/controllers/userController.js:45 | the index found holds the character and no later position does; -1 when the character is absent |
| Text.SuffixFromLast | backend/controllers/userController.js:45 | `substring(lastIndexOf('.'))` is the tail that starts at the last '.' and has no other '.'; the whole string when there is none |
| Calendar.DaysInMonth | frontend/src/pages/Appointment.jsx:31-32 | every month has between 28 and 31 days |
| Calendar.NextDay | frontend/src/pages/Appointment.jsx:31-32 | the next day is a valid day strictly after the given one |
| Calendar.AddDays | frontend/src/pages/Appointment.jsx:31-32 | `setDate(getDate() + i)` gives a valid day |
| Calendar.AddDaysIncreasing | frontend/src/pages/Appointment.jsx:75-77 | days further ahead come strictly later |
| Calendar.AddDaysDistinct | admin/src/pages/Doctor/DoctorSchedule.jsx:11-13 | different offsets from today give different days |
| Calendar.IsoKeyInjective | frontend/src/pages/Appointment.jsx:78 | different days have different `YYYY-MM-DD` keys |
| Calendar.SplitSlotKey | frontend/src/pages/Appointment.jsx:54 | the unpadded `D_M_YYYY` key splits on '_' into the day, month and year |
| Calendar.SlotKeyInjective | frontend/src/pages/Appointment.jsx:88 | different days have different `D_M_YYYY` keys |
| Calendar.PlusDays | backend/controllers/doctorController.js:228-230 | the window's upper bound is a valid instant at the same time of day |
| Slots.TimesOn | frontend/src/pages/Appointment.jsx:80 | `schedule?.[key] \|\| []` lists exactly the times booked or scheduled under the key, and nothing for an absent key |
| Slots.AddTime | backend/controllers/userController.js:178-181 | booking creates the key if absent, appends the time to that date's list and keeps every other date |
| Slots.AddTimeBooked | backend/controllers/userController.js:178-181 | after booking, exactly the old pairs and the new one are booked |
| Slots.AddTimeDuplicateFree | backend/controllers/userController.js:174-181 | booking a time not yet on the date keeps every list duplicate-free |
| Slots.ReleaseKeepKey | backend/controllers/userController.js:247-248 | the patient and admin release filter the time out of the date's list, keep every key (even one whose list is now empty) and every other list |
| Slots.ReleaseDropEmpty | backend/controllers/userController.js:282-289 | the delete and doctor release filter the time out, drop the key once its list is empty, and change nothing for an absent key |
| Slots.ReleaseKeepKeyBooked | backend/controllers/adminController.js:138-139 | after the release, exactly the old pairs other than the released one are booked |
| Slots.ReleaseDropEmptyBooked | backend/controllers/doctorController.js:201-208 | after the release, exactly the old pairs other than the released one are booked |
| Slots.ReleaseDropEmptyNoEmpty | backend/controllers/doctorController.js:204-206 | a map without empty lists keeps none after the release |
| Slots.ReleaseKeepKeyLeavesEmptyList | backend/controllers/adminController.js:138-139 | for every map and date whose list is exactly the released time, the date stays as a key mapped to an empty list |
| Slots.ReleaseDuplicateFree | backend/controllers/userController.js:248 | both releases keep the lists duplicate-free |
| Slots.BookThenReleaseKeepKey | backend/controllers/userController.js:178-181 | booking a free time on a date that already has a list, then releasing it, restores the map |
| Slots.BookThenReleaseDropEmpty | backend/controllers/userController.js:284-288 | booking a free time on a date without a list, then deleting it, restores the map |
| Payments.RequestPayment | backend/controllers/userController.js:321-325 | the patient's request is refused iff the payment is confirmed, and otherwise gives `pending` |
| Payments.Apply | backend/controllers/adminController.js:191 | a payment event never moves the status backwards; the admin's confirmation always gives `confirmed`; a patient's request gives `confirmed` iff it was already confirmed |
| Payments.RunMonotone | backend/controllers/userController.js:321-325 | over any sequence of events the payment status never moves backwards |
| Payments.RunConfirmed | backend/controllers/adminController.js:191 | a payment ends confirmed iff it started confirmed or the admin confirmed it |
| Payments.ConfirmIdempotent | backend/controllers/adminController.js:191 | confirming twice is confirming once |
| Medications.TotalAppend | backend/controllers/doctorController.js:299 | adding a medication adds its price, or 0 without one, to the total |
| Medications.TotalConcat | backend/controllers/doctorController.js:391 | the total of two lists joined is the sum of their totals |
| Medications.TotalSplit | admin/src/pages/Doctor/DiagnosisDetail.jsx:267 | the total is the part before an item, the item's price and the part after it |
| Medications.TotalRemoveAt | admin/src/pages/Doctor/DiagnosisDetail.jsx:110-113 | removing row `i` takes exactly its price off the displayed total |
| Medications.TotalReplaceAt | admin/src/pages/Doctor/DiagnosisDetail.jsx:98-102 | replacing row `i` swaps its price for the new one in the total |
| Medications.TotalNonNegative | backend/controllers/doctorController.js:299 | with no negative prices the bill total is never negative |
| Medications.SumPrices | admin/src/pages/Doctor/CreateDiagnosis.jsx:34 | the create page's sum, without `\|\| 0`, is a number iff every medication has a price |
| Medications.SumPricesIsTotal | admin/src/pages/Doctor/CreateDiagnosis.jsx:34 | when every medication has a price, the create page's total equals the backend's bill total |
| Medications.FirstIncomplete | admin/src/pages/Doctor/CreateDiagnosis.jsx:73-78 | the dosage/duration loop finds nothing iff every medication is complete, and otherwise returns the first incomplete one |
| Medications.ChangeAt | admin/src/pages/Doctor/DiagnosisDetail.jsx:98-102 | a field change keeps the length, edits row `i` only and keeps every other row |
| Medications.ChangeTextKeepsTotal | admin/src/pages/Doctor/DiagnosisDetail.jsx:98-102 | editing a name, dosage or duration leaves the total unchanged |
| Medications.ChangeInPlace | admin/src/pages/Doctor/CreateDiagnosis.jsx:63-70 | the shared array is changed in place, at row `i` and in the named field only |
| Schedule.FirstBadTime | backend/controllers/doctorController.js:249-253 | the time loop finds nothing iff every time is one of the nine allowed; otherwise it gives the first disallowed time |
| Schedule.EntryError | backend/controllers/doctorController.js:240-253 | an entry gives no error iff its date parses, lies in the window and has only allowed times; an error names the entry, and a time error names a disallowed time of it |
| Schedule.FirstErrorMeaning | backend/controllers/doctorController.js:239-254 | no error is reported iff every entry passes; a reported error names a failing entry and all entries before it pass |
| Schedule.FirstErrorIffRefused | backend/controllers/doctorController.js:239-254 | over the whole request, an error is reported iff some entry fails |
| Schedule.Validate | backend/controllers/doctorController.js:239-254 | the nested loop with early exit reports the first failing entry's error, and none iff the whole request is accepted |
| Schedule.DayKeysDistinct | admin/src/pages/Doctor/DoctorSchedule.jsx:12 | different offsets give different date keys |
| Schedule.EmptyDaysKeys | admin/src/pages/Doctor/DoctorSchedule.jsx:9-16 | the keys are exactly today through today + n - 1 |
| Schedule.NextKeyFresh | admin/src/pages/Doctor/DoctorSchedule.jsx:11-13 | each step of the loop adds a date not yet present |
| Schedule.EmptyDaysSize | admin/src/pages/Doctor/DoctorSchedule.jsx:9-16 | n days give n keys |
| Schedule.EmptyDaysEmpty | admin/src/pages/Doctor/DoctorSchedule.jsx:13 | no date holds a time |
| Schedule.EmptyDaysShape | admin/src/pages/Doctor/DoctorSchedule.jsx:9-16 | the initial map has exactly n dates from today, each with no time |
| Schedule.GenerateInitialSchedule | admin/src/pages/Doctor/DoctorSchedule.jsx:9-16 | the loop builds exactly 15 dates, today through today + 14, today included, each with an empty list |
| Schedule.Toggle | admin/src/pages/Doctor/DoctorSchedule.jsx:24-34 | toggling removes every copy of a listed time, or appends an absent one; every other date keeps its list |
| Schedule.ToggleTwice | admin/src/pages/Doctor/DoctorSchedule.jsx:25-33 | toggling an absent time on and off restores the schedule |
| Schedule.ToggleKeepsLists | admin/src/pages/Doctor/DoctorSchedule.jsx:26-28 | toggling an allowed time keeps every list duplicate-free and allowed |
| Schedule.SelectableDays | admin/src/pages/Doctor/DoctorSchedule.jsx:40-43 | on a schedule made of the first n days from today (15 in the editor), a valid day can be picked iff it is today + i for some i < n |
| Schedule.EmptyDaysHasDay | admin/src/pages/Doctor/DoctorSchedule.jsx:9-16 | each of the first n days has its key in the initial schedule |
| Schedule.EmptyDaysDayOf | admin/src/pages/Doctor/DoctorSchedule.jsx:9-16 | every key of the initial schedule is the key of one of the first n days |
| Schedule.StepGood | admin/src/pages/Doctor/DoctorSchedule.jsx:55-59 | a click keeps the editor's dates, keeps the selection among them and keeps the lists duplicate-free and allowed |
| Schedule.RunEditorGood | admin/src/pages/Doctor/DoctorSchedule.jsx:20-43 | whatever the doctor clicks, the schedule keeps exactly the 15 initial dates, the selected date stays one of them, and every list is duplicate-free and allowed |
| Schedule.RunGoodFrom | admin/src/pages/Doctor/DoctorSchedule.jsx:20-43 | any run of clicks from a good editor state ends in a good state |
| Schedule.EditorSubmissionAcceptedByDay | admin/src/pages/Doctor/DoctorSchedule.jsx:36-38 | every schedule the editor can submit passes the check when dates are compared as whole days |
| Schedule.EditorSubmissionRefusedAsWritten | backend/controllers/doctorController.js:245 | once the day has begun, the check as written refuses every schedule the editor can submit |
| Availability.HourLabelInjective | frontend/src/pages/Appointment.jsx:48-52 | different hours get different `HH:00` labels |
| Availability.FreeHoursMeaning | frontend/src/pages/Appointment.jsx:47-62 | the kept hours lie in the range, pass the free test, and go up |
| Availability.FreeHoursInRange | frontend/src/pages/Appointment.jsx:47-62 | every kept hour lies in the range and passes the free test |
| Availability.FreeHoursIncreasing | frontend/src/pages/Appointment.jsx:47-62 | the kept hours go up |
| Availability.FreeHoursComplete | frontend/src/pages/Appointment.jsx:47-62 | every hour in the range that passes the free test is kept |
| Availability.FallbackStep | frontend/src/pages/Appointment.jsx:48-61 | one step of the hour loop keeps the hour and appends its slot exactly when its label is not booked |
| Availability.SlotsAt | frontend/src/pages/Appointment.jsx:58 | one slot per kept hour |
| Availability.SlotsAtIndex | frontend/src/pages/Appointment.jsx:58 | slot `k` is on the day at hour `k`'s label |
| Availability.FallbackListMeaning | frontend/src/pages/Appointment.jsx:37-62 | every template slot is on its day at a whole hour from the start hour up to 18:00, is not booked, and the hours go up; every free hour in that range is offered |
| Availability.FallbackHours | frontend/src/pages/Appointment.jsx:44-62 | the hourly `while` loop of one day gives exactly that day's free template slots |
| Availability.AvailableSlotsFallback | frontend/src/pages/Appointment.jsx:26-68 | the fallback gives 7 lists; list `i` is today + `i`'s free template slots, starting at max(10, hour + 1) today and 08:00 later |
| Availability.FreeSlots | frontend/src/pages/Appointment.jsx:83-94 | the kept schedule times are on the day, come from the schedule's list, and are not booked |
| Availability.FreeSlotsConcat | frontend/src/pages/Appointment.jsx:83-94 | filtering keeps the schedule's order |
| Availability.FreeSlotsComplete | frontend/src/pages/Appointment.jsx:89-92 | every listed time that is not booked is offered |
| Availability.AvailableSlotsFromSchedule | frontend/src/pages/Appointment.jsx:70-100 | the schedule calculator gives 7 lists; list `i` holds the times under today + `i`'s ISO key that are not booked under its `D_M_YYYY` key, in schedule order |
| Availability.AvailableSlots | frontend/src/pages/Appointment.jsx:135-144 | the schedule is used iff it has a key, and the template otherwise; 7 lists either way |
| Availability.CalculatorsGood | frontend/src/pages/Appointment.jsx:55-58 | each list of either calculator is on its day and holds no booked time |
| Availability.BookingKey | frontend/src/pages/Appointment.jsx:109-110 | no key is sent iff the selected day is out of range or has no slot |
| Availability.BookingKeyIsDayKey | frontend/src/pages/Appointment.jsx:109-110 | for the calculators' lists, the key sent is the unpadded key of today + `i` |
| Availability.BookedSlotNotOffered | frontend/src/pages/Appointment.jsx:55-58 | once a time is booked on a day, neither calculator offers it on that day again |
| AppointmentViews.SlotDateFormat | frontend/src/pages/MyAppointments.jsx:49-72 | an empty input gives the invalid-date message; a string with '_' and three parts is rebuilt as `y-mm-dd`; anything else goes to the generic parse unchanged |
| AppointmentViews.PadPartSmall | frontend/src/pages/AppointmentHistory.jsx:64-65 | padding the rendering of 1 to 99 gives its two-digit form |
| AppointmentViews.SlotKeyNormalised | frontend/src/pages/AppointmentHistory.jsx:56-76 | the booking page's `D_M_YYYY` key of a day with a four-digit year comes out as that day's ISO key |
| AppointmentViews.NoSeparatorIsRaw | frontend/src/pages/AppointmentHistory.jsx:73-75 | a non-empty string without '_' goes to the generic parse unchanged |
| AppointmentViews.WrongPartCountIsRaw | frontend/src/pages/MyAppointments.jsx:53-55 | every string with '_' whose separators are not exactly two falls through to the generic parse |
| AppointmentViews.KeepPaid | frontend/src/pages/MyAppointments.jsx:81 | the filter keeps exactly the appointments whose paid state is the one asked for |
| AppointmentViews.KeepPaidConcat | frontend/src/pages/MyAppointments.jsx:81 | the filter distributes over concatenation, so the kept appointments stay in stored order |
| AppointmentViews.KeepPaidSingle | frontend/src/pages/MyAppointments.jsx:81 | one appointment is kept iff its paid state is the one asked for |
| AppointmentViews.KeepPaidSplits | frontend/src/pages/AppointmentHistory.jsx:83 | the paid and unpaid filters together hold every appointment exactly as often as it is stored |
| AppointmentViews.PagesPartition | frontend/src/pages/AppointmentHistory.jsx:83-84 | the two pages hold complementary lists (unpaid on one, confirmed on the other) that together are the whole list, each newest first |
| AppointmentViews.PagesCover | frontend/src/pages/AppointmentHistory.jsx:83-84 | the paid page and the unpaid page together hold every stored appointment exactly as often as it is stored |
| AppointmentViews.UnpaidPage | frontend/src/pages/MyAppointments.jsx:81-82 | the unpaid page holds exactly the unpaid appointments, item k being item k from the end of the filtered list |
| AppointmentViews.PaidPage | frontend/src/pages/AppointmentHistory.jsx:83-84 | the paid page holds exactly the paid appointments, item k being item k from the end of the filtered list |
| AppointmentViews.ReverseKeeps | frontend/src/pages/MyAppointments.jsx:82 | reversal keeps items and counts and puts item `k` from the end first |
| AppointmentViews.ActionsMeaning | frontend/src/pages/MyAppointments.jsx:223-273 | cancel is offered iff the item is live and not confirmed; delete iff it is cancelled; the payment request iff it is live and unpaid, and the backend then accepts it; the wait badge iff it is live and pending |
| AppointmentViews.NoPaidBadgeListed | frontend/src/pages/MyAppointments.jsx:243-250 | the paid badge never shows on the unpaid list |
| DiagnosisForms.FindIn | admin/src/pages/Doctor/CreateDiagnosis.jsx:44 | `find` by name returns a listed item with that name, and none iff no item has it |
| DiagnosisForms.Find | admin/src/pages/Doctor/CreateDiagnosis.jsx:11-19 | a catalogue lookup returns a catalogue item with that name, and none iff none has it |
| DiagnosisForms.AddSelected | admin/src/pages/Doctor/CreateDiagnosis.jsx:43-53 | a medication is appended iff it is in the catalogue and not listed yet, at its catalogue price with empty dosage and duration; otherwise the list is unchanged; the selector is cleared either way |
| DiagnosisForms.AddSelectedKeepsShape | admin/src/pages/Doctor/CreateDiagnosis.jsx:45-50 | names stay unique and every entry stays a catalogue medication at its price |
| DiagnosisForms.AddSelectedTwice | admin/src/pages/Doctor/CreateDiagnosis.jsx:45 | adding the same medication a second time changes nothing |
| DiagnosisForms.AddSelectedTotal | admin/src/pages/Doctor/CreateDiagnosis.jsx:34 | adding raises the total by the catalogue price, or leaves it |
| DiagnosisForms.RemoveByName | admin/src/pages/Doctor/CreateDiagnosis.jsx:55-60 | removal by name drops every entry with that name and keeps the others |
| DiagnosisForms.RemoveAbsentName | admin/src/pages/Doctor/CreateDiagnosis.jsx:58 | removing an unlisted name keeps the list as it was |
| DiagnosisForms.RemoveWhatWasAdded | admin/src/pages/Doctor/CreateDiagnosis.jsx:43-60 | adding an unlisted medication and removing it by name restores the list |
| DiagnosisForms.RemoveByNameConcat | admin/src/pages/Doctor/CreateDiagnosis.jsx:55-60 | removal by name distributes over concatenation, so the kept entries stay in order |
| DiagnosisForms.RemoveByNameSingle | admin/src/pages/Doctor/CreateDiagnosis.jsx:58 | one entry is dropped iff it carries the name |
| DiagnosisForms.RemoveByNameAppend | admin/src/pages/Doctor/CreateDiagnosis.jsx:58 | removing a name ignores an appended entry of that name |
| DiagnosisForms.AppendBlankTotal | admin/src/pages/Doctor/DiagnosisDetail.jsx:104-107 | appending the blank row leaves the total unchanged |
| DiagnosisForms.RemoveAppended | admin/src/pages/Doctor/DiagnosisDetail.jsx:318-333 | removing by index the row or item just appended gives the list back |
| DiagnosisForms.UpdateAllowed | admin/src/pages/Doctor/DiagnosisDetail.jsx:66-69 | the update is sent iff the diagnosis text has a character that `trim` keeps |
| Backend.PutAppointment | backend/controllers/userController.js:241 | a write to one appointment changes that appointment only |
| Backend.PutDoctor | backend/controllers/userController.js:250 | a write to one doctor changes that doctor only |
| Backend.PutAppointmentOrder | backend/controllers/adminController.js:158 | rewriting an existing appointment keeps `find({})` listing each appointment once |
| Consistency.EmptyConsistent | backend/models/doctorModel.js:15 | an empty clinic agrees |
| Consistency.SameBookingsConsistent | backend/controllers/userController.js:325 | a write that changes no booking keeps the agreement |
| Consistency.AddDoctorConsistent | backend/controllers/adminController.js:60-61 | adding a doctor with no booked slots keeps the agreement |
| Consistency.BookConsistent | backend/controllers/userController.js:174-201 | storing a live appointment at a free slot and booking that slot keeps the agreement |
| Consistency.ReleasesRelease | backend/controllers/userController.js:248 | on a duplicate-free map, both releases free exactly the pair and keep the lists clean |
| Consistency.CancelLiveConsistent | backend/controllers/doctorController.js:192-208 | cancelling a live appointment and releasing its slot keeps the agreement |
| Consistency.DeleteLiveConsistent | backend/controllers/userController.js:282-292 | deleting a live appointment and releasing its slot keeps the agreement |
| Consistency.DeleteCancelledConsistent | backend/controllers/userController.js:292 | deleting a cancelled appointment without a release keeps the agreement |
| Consistency.ReleaseHeldBreaks | backend/controllers/userController.js:248 | a live appointment whose slot is not booked breaks the agreement |
| UserController.RegistrationError | backend/controllers/userController.js:20-63 | registration passes iff all fields are present, the name has at most 50 allowed characters, the email has at most 100, is an address ending in `.com` or `.vn` and is not registered, and the password is strong; missing fields, a long name and a taken email get their own replies |
| UserController.Register | backend/controllers/userController.js:11-83 | an account is stored iff the checks on the trimmed name and trimmed lower-cased email pass, and nothing changes otherwise |
| UserController.RegisterTouchesUsersOnly | backend/controllers/userController.js:64-77 | registration writes the users and nothing else |
| UserController.RegisterMeaning | backend/controllers/userController.js:16-63 | a stored account has a trimmed, allowed name of 1 to 50 characters and a lower-case email of at most 100 characters ending in `.com` or `.vn`, its password was strong, and emails stay unique |
| UserController.RegisterTwice | backend/controllers/userController.js:60-63 | registering the same email again is refused and changes nothing |
| UserController.Book | backend/controllers/userController.js:157-209 | booking is refused without a time, for a missing or unavailable doctor and for a booked slot, with nothing written; it succeeds iff, in addition, the slot is free, the user exists and the ids and date are non-empty; it then stores a live unpaid appointment with the doctor's data minus the password, books the slot, and appends the appointment to the stored order |
| UserController.BookConsistent | backend/controllers/userController.js:174-201 | booking keeps the agreement and the stored order |
| UserController.BookTwiceRefused | backend/controllers/userController.js:174-176 | booking the same doctor, date and time right after a successful booking is refused with nothing changed |
| UserController.Cancel | backend/controllers/userController.js:226-258 | the cancel is refused for an unknown appointment or another user's appointment; otherwise it marks the appointment cancelled, then either releases the time keeping the key, or stops with a server error (the mark kept) when the doctor or date key is missing |
| UserController.CancelGuarded | backend/controllers/userController.js:226-258 | the corrected cancel refuses an already-cancelled appointment with nothing changed and otherwise is the cancel as written |
| UserController.CancelGuardedConsistent | backend/controllers/userController.js:241-250 | the corrected cancel keeps the agreement and never stops half-way |
| UserController.RecancelBreaks | backend/controllers/userController.js:241-250 | cancelling again an appointment whose slot another patient now holds succeeds and breaks the agreement |
| UserController.Delete | backend/controllers/userController.js:261-300 | the delete is refused for an unknown or foreign appointment or a missing doctor, with nothing changed; otherwise it releases the time (dropping an emptied key), removes the appointment and drops it from the stored order |
| UserController.DeleteGuarded | backend/controllers/userController.js:261-300 | the corrected delete releases nothing for a cancelled appointment and otherwise is the delete as written |
| UserController.DeleteOrder | backend/controllers/userController.js:292 | removing an appointment and its id keeps the stored order valid |
| UserController.DeleteGuardedConsistent | backend/controllers/userController.js:282-292 | the corrected delete keeps the agreement and the stored order |
| UserController.DeleteCancelledBreaks | backend/controllers/userController.js:282-292 | deleting a cancelled appointment whose slot another patient now holds succeeds and breaks the agreement |
| UserController.RequestPay | backend/controllers/userController.js:307-332 | the request succeeds iff the appointment exists, is the user's and is not confirmed; a confirmed one gets its own reply; success sets `pending` and nothing else |
| UserController.RequestPayConsistent | backend/controllers/userController.js:321-325 | the request keeps the agreement and repeating it changes nothing more |
| UserController.Rebooked | backend/controllers/userController.js:157-258 | book, cancel, then another patient's booking of the same slot all succeed, and the result agrees with the first appointment cancelled and the second holding the slot |
| UserController.RecancelScenario | backend/controllers/userController.js:241-250 | after that sequence, the first patient's second cancel succeeds and breaks the agreement, while the corrected cancel refuses it |
| UserController.DeleteScenario | backend/controllers/userController.js:282-292 | after that sequence, the first patient's delete breaks the agreement, while the corrected delete succeeds and keeps it |
| DoctorController.ChangeAvailability | backend/controllers/doctorController.js:9-27 | the toggle succeeds iff the doctor exists; it negates `available` of that doctor and changes nothing else |
| DoctorController.ChangeAvailabilityTwice | backend/controllers/doctorController.js:14-20 | toggling twice restores the clinic, and a toggle keeps the agreement |
| DoctorController.DoctorCancel | backend/controllers/doctorController.js:169-217 | the doctor's cancel as written is refused with nothing changed for a missing id, an unknown appointment, another doctor's appointment or an already-cancelled one; otherwise it saves the appointment's cancelled mark and answers success, or 404 with the mark kept when the doctor is missing; the doctors are never changed, since the in-place release on the schema-less `slots_booked` is not saved |
| DoctorController.DoctorCancelSaved | backend/controllers/doctorController.js:188-208 | the same cancel with the release saved: on success the time is also filtered out of the date's list and an emptied key dropped |
| DoctorController.DoctorCancelSavedConsistent | backend/controllers/doctorController.js:188-208 | the cancel with the release saved keeps the agreement and never stops half-way |
| DoctorController.DoctorCancelLeavesSlotBooked | backend/controllers/doctorController.js:192-208 | on a consistent clinic the cancel as written succeeds, leaves the slot booked with no live holder, and breaks the agreement |
| DoctorController.RequestSchedule | backend/controllers/doctorController.js:219-269 | the request is refused without a request object, with the first failing entry's error (which names a failing entry), or for a missing doctor, with nothing written; it succeeds iff every entry passes and the doctor exists, and then only the pending request is replaced |
| DoctorController.RequestScheduleConsistent | backend/controllers/doctorController.js:256-262 | a schedule request keeps the agreement and never touches the approved schedule |
| DoctorController.EditorRequestOutcome | backend/controllers/doctorController.js:245 | what the schedule page submits is stored under the corrected window, and is refused by the handler as written once the day has begun |
| DoctorController.CreateDiagnosis | backend/controllers/doctorController.js:272-327 | creation is refused for missing fields, an empty medication list, an unknown appointment, or a record the schema refuses (a medication without name, dosage, duration or price), with nothing written; otherwise it stores the diagnosis with the appointment's doctor and patient, the bill total and a pending bill, and marks the appointment completed and linked to it |
| DoctorController.CreateDiagnosisConsistent | backend/controllers/doctorController.js:299-319 | creation keeps the agreement and the appointment–diagnosis links, and with no negative prices the total is not negative |
| DoctorController.UpdateDiagnosis | backend/controllers/doctorController.js:372-415 | the update succeeds iff the id and fields are present, the medication list is non-empty and complete, and the diagnosis exists; it replaces the five fields and recomputes the total, and changes nothing else |
| DoctorController.UpdateDiagnosisConsistent | backend/controllers/doctorController.js:391-404 | the update keeps the agreement and links, and repeating it changes nothing more |
| DoctorController.DeleteDiagnosis | backend/controllers/doctorController.js:417-442 | the delete succeeds iff the diagnosis exists; it removes it and returns its appointment to `pending` without a diagnosis |
| DoctorController.DeleteDiagnosisConsistent | backend/controllers/doctorController.js:425-435 | deleting a diagnosis keeps the agreement and the links |
| DoctorController.UpdateBillStatus | backend/controllers/doctorController.js:446-470 | the bill status is set iff the diagnosis exists, is the doctor's and the value is `pending` or `paid`; the stored status then has that name |
| DoctorController.UpdateBillStatusConsistent | backend/controllers/doctorController.js:462-463 | setting the bill status keeps the agreement and the links |
| AdminController.AddDoctor | backend/controllers/adminController.js:11-70 | adding is refused for a missing field, an invalid email, a short password, a failed upload or parse, an invalid record or a taken email, with nothing written; otherwise a new available doctor with the hashed password and no slots is stored |
| AdminController.AddDoctorMeaning | backend/models/doctorModel.js:5-23 | adding a doctor keeps the agreement and doctor emails unique, and the new doctor is available with empty maps |
| AdminController.AdminCancel | backend/controllers/adminController.js:122-149 | the admin's cancel is refused for an unknown appointment; otherwise it marks it cancelled, then either releases the time keeping the key, or stops with a server error (the mark kept) |
| AdminController.AdminCancelGuarded | backend/controllers/adminController.js:122-149 | the corrected admin cancel refuses an already-cancelled appointment and otherwise is the cancel as written |
| AdminController.AdminCancelGuardedConsistent | backend/controllers/adminController.js:132-141 | the corrected admin cancel keeps the agreement and never stops half-way |
| AdminController.AdminRecancelBreaks | backend/controllers/adminController.js:132-141 | cancelling again an appointment whose slot another patient now holds succeeds and breaks the agreement |
| AdminController.Lookup | backend/controllers/adminController.js:158 | the looked-up list holds the appointment of each id in order |
| AdminController.Dashboard | backend/controllers/adminController.js:152-173 | the counts are the numbers of doctors, users and listed appointments; the latest list has min(5, n) entries, newest first |
| AdminController.DistinctCount | backend/controllers/adminController.js:162 | a duplicate-free list has as many distinct entries as its length |
| AdminController.DashboardCount | backend/controllers/adminController.js:162 | the appointment count is the number of stored appointments |
| AdminController.ConfirmPayment | backend/controllers/adminController.js:177-198 | confirmation succeeds iff the id is present and the appointment exists, and it sets `confirmed` from any state, changing nothing else |
| AdminController.ConfirmPaymentMeaning | backend/controllers/adminController.js:190-192 | confirmation keeps the agreement, is idempotent, and after it the patient's payment request is refused as confirmed |
| AdminController.Approve | backend/controllers/adminController.js:201-224 | approval succeeds iff the doctor exists and has a non-empty request; the approved schedule becomes the request and the request becomes empty |
| AdminController.RequestThenApprove | backend/controllers/adminController.js:210-216 | an accepted non-empty request, once approved, is exactly the doctor's schedule and passes the check; a second approval is refused; the agreement holds |
| Requests.DispatchKeepsGood | backend/server.js:47-49 | every request handled by the corrected handlers keeps the agreement, the stored order and the diagnosis links |
| Requests.RegisterKeepsGood | backend/controllers/userController.js:64-77 | registration keeps all three |
| Requests.UsersOnlyKeepsGood | backend/controllers/userController.js:64-77 | a change to the users alone keeps all three |
| Requests.BookKeepsGood | backend/controllers/userController.js:198-201 | booking keeps all three |
| Requests.CancelKeepsGood | backend/controllers/userController.js:241-250 | the corrected patient cancel keeps all three |
| Requests.DeleteKeepsGood | backend/controllers/userController.js:282-292 | the corrected delete keeps all three |
| Requests.RequestPayKeepsGood | backend/controllers/userController.js:325 | the payment request keeps all three |
| Requests.ChangeAvailabilityKeepsGood | backend/controllers/doctorController.js:20 | the availability toggle keeps all three |
| Requests.DoctorCancelKeepsGood | backend/controllers/doctorController.js:192-208 | the doctor's cancel with the release saved keeps all three |
| Requests.DoctorCancelScenario | backend/controllers/doctorController.js:192-208 | after a booking and the doctor's cancel as written, the clinic is out of agreement and a second booking of the slot is refused; with the release saved, the clinic agrees and the second booking is accepted |
| Requests.RequestScheduleKeepsGood | backend/controllers/doctorController.js:261-262 | a schedule request keeps all three, under either window |
| Requests.AddDoctorKeepsGood | backend/controllers/adminController.js:60-61 | adding a doctor keeps all three |
| Requests.AdminCancelKeepsGood | backend/controllers/adminController.js:132-141 | the corrected admin cancel keeps all three |
| Requests.ConfirmKeepsGood | backend/controllers/adminController.js:191-192 | confirmation keeps all three |
| Requests.ApproveKeepsGood | backend/controllers/adminController.js:214-216 | approval keeps all three |
| Requests.KeepLinks | backend/controllers/userController.js:241 | rewriting one appointment without touching its diagnosis link keeps the order and links |
| Requests.BookLinks | backend/controllers/userController.js:198-199 | a new appointment has no diagnosis, so the links hold |
| Requests.RunKeepsGood | backend/server.js:47-49 | any sequence of requests keeps the agreement, the stored order and the links |
| Requests.FromEmpty | backend/server.js:23-49 | every clinic reachable from the empty one agrees |
| Clinic.ClinicDb.constructor | backend/server.js:23 | the backend starts with empty collections |
| Clinic.ClinicDb.RegisterUser | backend/controllers/userController.js:11-83 | the route's reply and new collections are those of `UserController.Register`, and the invariant is kept |
| Clinic.ClinicDb.BookAppointment | backend/controllers/userController.js:157-209 | the route's reply and new collections are those of `UserController.Book`, and the invariant is kept |
| Clinic.ClinicDb.CancelAppointment | backend/controllers/userController.js:226-258 | the route's reply and new collections are those of `UserController.Cancel` |
| Clinic.ClinicDb.DeleteAppointment | backend/controllers/userController.js:261-300 | the route's reply and new collections are those of `UserController.Delete` |
| Clinic.ClinicDb.RequestPayment | backend/controllers/userController.js:307-332 | the route's reply and new collections are those of `UserController.RequestPay`, and the invariant is kept |
| Clinic.ClinicDb.ChangeAvailability | backend/controllers/doctorController.js:9-27 | the route's reply and new collections are those of `DoctorController.ChangeAvailability`, and the invariant is kept |
| Clinic.ClinicDb.DoctorCancelAppointment | backend/controllers/doctorController.js:169-217 | the route's reply and new collections are those of the as-written `DoctorController.DoctorCancel` |
| Clinic.ClinicDb.RequestWorkingSchedule | backend/controllers/doctorController.js:219-269 | the route runs the validation loop and its reply and new collections are those of `DoctorController.RequestSchedule` on exact instants, and the invariant is kept |
| Clinic.ClinicDb.CreateDiagnosis | backend/controllers/doctorController.js:272-327 | the route runs the medication loop and its reply and new collections are those of `DoctorController.CreateDiagnosis`, and the invariant is kept |
| Clinic.ClinicDb.UpdateDiagnosis | backend/controllers/doctorController.js:372-415 | the route's reply and new collections are those of `DoctorController.UpdateDiagnosis`, and the invariant is kept |
| Clinic.ClinicDb.DeleteDiagnosis | backend/controllers/doctorController.js:417-442 | the route's reply and new collections are those of `DoctorController.DeleteDiagnosis`, and the invariant is kept |
| Clinic.ClinicDb.UpdatePaymentStatus | backend/controllers/doctorController.js:446-470 | the route's reply and new collections are those of `DoctorController.UpdateBillStatus`, and the invariant is kept |
| Clinic.ClinicDb.AddDoctor | backend/controllers/adminController.js:11-70 | the route's reply and new collections are those of `AdminController.AddDoctor`, and the invariant is kept |
| Clinic.ClinicDb.AppointmentCancel | backend/controllers/adminController.js:122-149 | the route's reply and new collections are those of `AdminController.AdminCancel` |
| Clinic.ClinicDb.ConfirmPayment | backend/controllers/adminController.js:177-198 | the route's reply and new collections are those of `AdminController.ConfirmPayment`, and the invariant is kept |
| Clinic.ClinicDb.ApproveWorkingSchedule | backend/controllers/adminController.js:201-224 | the route's reply and new collections are those of `AdminController.Approve`, and the invariant is kept |

## Left out

- **Persistence.** Mongoose is four in-memory maps, and each handler is one atomic step.
  A write the code makes through `save()` is kept only where Mongoose would track it: the
  in-place change to the schema-less `slots_booked` in the doctor's cancel is not kept.
  Races between concurrent requests and the two separate writes of a booking are
  concurrency, which the model does not have.
- **Ids.** A malformed id (a Mongoose CastError) is treated like an unknown id.
  `findById(undefined)` is an unknown id too.
- **Document fields not modelled.** The appointment's `payment`, `isCompleted`, `notes`,
  `createdAt` and `updatedAt`, and the doctor's `date` and `diagnosisTemplates`, are not
  modelled: no core handler reads them. The appointment `date` is kept as a number.
- **Authentication.** bcrypt, JWT and the three login handlers are not modelled. The
  acting user or doctor id is a parameter, and the password hash is `hashedPassword`.
- **Foreign calls.** Cloudinary, multer, `JSON.parse`, `validator.isEmail` and
  `new Date(string)` are not modelled: they enter as parameters.
- **Read-only routes.** listAppointment, the diagnosis lookups, the list and detail routes,
  and the update and delete of doctors and users return data or touch only fields outside
  the core, and have no model.
- **The user model.** backend/models/userModel.js is not part of this model. A user has the
  name and email of registration, and email uniqueness is the `findOne` check only.
- **Time.** Time zones are not modelled, so a day's ISO key and its `D_M_YYYY` key name the
  same calendar day. `toLocaleTimeString` is assumed to give `HH:00`. dayjs display
  formatting and its validity check are not modelled.
- **The `{time, room}` slot objects** some admin views expect are not modelled: the backend
  and the booking page treat list entries as plain time strings.
- **Display-only code.** Rendering, navigation, toasts, the network clients and the
  display-only projections of other pages are not modelled.
- **UserController.NameChar:** the Unicode letter class of the name pattern is narrowed to
  A to Z, a to z and U+00C0 to U+1EF9, plus spaces, '.', `'` and '-'.
- **UserController.RegistrationError:** lengths count Unicode scalar values rather than
  UTF-16 code units. Lower-casing folds only A to Z.
- **Text.ToLower:** folds only A to Z and keeps the length. JavaScript's `toLowerCase`
  also lowers non-ASCII letters ("Ä" to "ä") and can lengthen a string (U+0130 becomes two
  code points), so two emails that differ only in non-ASCII case are distinct accounts in
  the model but one email in the program.
- **UserController.Register:** `findOne({ email })` and the save are one step. A duplicate
  key raised by a concurrent registration is not modelled.
- **DoctorController.RequestSchedule:** needs `keys` to list the request's entries once each
  (`Object.entries` order) and an instant `now` that lies within a day. A request body that
  is an object of non-list values is not modelled.
- **DoctorController.UpdateBillStatus:** an absent `paymentStatus` is treated as an invalid
  value.
- **DoctorController.CreateDiagnosis:** any doctor may diagnose any appointment, as the
  handler does. A second diagnosis of the same appointment leaves the first one stored but
  unlinked; the model keeps that behaviour and proves nothing about it.
- **Schedule.EditorSubmissionAcceptedByDay:** assumes `new Date` reads an ISO key as the
  midnight starting that day (`ParsesIsoKeys`).
- **AdminController.Dashboard:** requires the stored order to list every appointment once,
  which every handler keeps (`Requests.RunKeepsGood`).
- **AdminController.AddDoctor:** the address is stored as the parsed text, not as an object.
  The `password.length < 8` check counts Unicode scalar values rather than UTF-16 code units.
- **Records.Medication:** `price` is an optional integer. The schema's `Number` and the
  pages' prices may be fractional; fractional prices and floating-point sums are not
  modelled.
- **AppointmentViews.SlotDateFormat:** stops at the string handed to dayjs. An input that
  dayjs cannot read is not modelled.
- **DiagnosisForms:** the create page's text fields are plain strings, and the empty-string
  checks of the backend are on those strings.
- **Approval route:** the route `approveWorkingSchedule` is wired to supplies the doctor id
  as a path parameter, while the handler reads it from the body. The model takes `doctorId`
  as an input.

## Findings

| source | as written | input that shows it | evidently intended | confidence | as-written member | corrected member |
|---|---|---|---|---|---|---|
| backend/controllers/userController.js:241-250 | the patient cancel marks the appointment cancelled and filters its time out of the doctor's list, even when it was already cancelled | patient A books `4_6_2025` 10:00 and cancels; patient B books the same slot; A cancels again: B's live appointment loses its booked slot, which can then be booked a third time | an already-cancelled appointment is refused, as the doctor-side cancel does | not executed | UserController.RecancelScenario | UserController.CancelGuardedConsistent |
| backend/controllers/adminController.js:132-141 | the admin cancel has the same missing guard | the same sequence with the admin cancelling A's appointment twice | an already-cancelled appointment is refused | not executed | AdminController.AdminRecancelBreaks | AdminController.AdminCancelGuardedConsistent |
| backend/controllers/userController.js:282-292 | deleting an appointment releases its slot even when it was cancelled and the slot was rebooked | A books and cancels; B books the same slot; A deletes the cancelled appointment: B's slot is released | only a live appointment gives its slot back | not executed | UserController.DeleteScenario | UserController.DeleteGuardedConsistent |
| backend/controllers/doctorController.js:201-208 | the doctor's cancel filters the time out of `doctor.slots_booked` in place and calls `doctor.save()`; `slots_booked` is a schema-less `Object` path (doctorModel.js:15) and nothing marks it modified, so the release is not saved | a patient books `4_6_2025` 10:00 and the doctor cancels it: the reply is success, the stored doctor still lists 10:00, and a second patient's booking of that slot is refused as unavailable | the release is saved (`markModified('slots_booked')` before the save, or an update as the other cancels use) | not executed | Requests.DoctorCancelScenario | DoctorController.DoctorCancelSavedConsistent |
| backend/controllers/doctorController.js:245 | the window compares the key's instant (midnight) with the current instant | any submission from the schedule page after 00:00: today's key, always present, reads as a midnight before now and is refused ("out of allowed range"), so no schedule can ever be submitted | the window is compared on calendar days, today included | not executed | Schedule.EditorSubmissionRefusedAsWritten | Schedule.EditorSubmissionAcceptedByDay |

`Requests.Dispatch` uses the corrected members: `UserController.CancelGuarded`,
`UserController.DeleteGuarded`, `AdminController.AdminCancelGuarded`,
`DoctorController.DoctorCancelSaved`, and
`DoctorController.RequestSchedule` with `WholeDays`. `Clinic.ClinicDb` keeps the handlers
as written.
