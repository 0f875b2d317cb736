/**
 * The doctor-facing handlers: the availability switch, the doctor's cancellation, the
 * working-schedule request, and the diagnosis records.  `docId` is the id the
 * authentication middleware attached to the request.
 */
module DoctorController {
  import opened Wrappers
  import opened Calendar
  import opened Records
  import opened Medications
  import opened Backend
  import opened Consistency
  import Slots
  import Schedule

  // ---------------------------------------------------------------------------------
  // changeAvailability

  /** `changeAvailability`: flips the doctor's `available` flag, or refuses an unknown doctor. */
  function ChangeAvailability(db: Db, docId: Id): (r: Reply)
    ensures r.outcome == Done <==> docId in db.doctors
    ensures r.outcome.Failed? ==> r == Reply(Failed(DoctorNotFound), db)
    ensures r.outcome == Done ==>
      r.db.doctors.Keys == db.doctors.Keys
      && r.db.doctors[docId].available == !db.doctors[docId].available
      && r.db.doctors[docId] == db.doctors[docId].(available := r.db.doctors[docId].available)
      && (forall d :: d in db.doctors && d != docId ==> r.db.doctors[d] == db.doctors[d])
      && r.db.appointments == db.appointments && r.db.order == db.order
      && r.db.users == db.users && r.db.diagnoses == db.diagnoses
  {
    if docId !in db.doctors then Reply(Failed(DoctorNotFound), db)
    else
      var doc := db.doctors[docId];
      Reply(Done, PutDoctor(db, docId, doc.(available := !doc.available)))
  }

  /** Switching twice restores the clinic; switching keeps the bookings in agreement. */
  lemma ChangeAvailabilityTwice(db: Db, docId: Id)
    requires docId in db.doctors
    ensures ChangeAvailability(ChangeAvailability(db, docId).db, docId).db == db
    ensures Consistent(db) ==> Consistent(ChangeAvailability(db, docId).db)
  {
    var r := ChangeAvailability(db, docId).db;
    assert ChangeAvailability(r, docId).db.doctors == db.doctors;
    if Consistent(db) {
      SameBookingsConsistent(db, r);
    }
  }

  // ---------------------------------------------------------------------------------
  // cancelAppointment (doctor)

  /**
   * The doctor's `cancelAppointment` as written: refused without an id, for an unknown
   * appointment, for another doctor's appointment, and for one already cancelled.  The
   * cancellation is saved first; when the doctor is then not found the handler answers 404
   * with that write kept.  Otherwise the time is filtered out of the loaded doctor's
   * `slots_booked` in place and `doctor.save()` is called; `slots_booked` is a schema-less
   * (Mixed) path and nothing marks it modified, so that save writes no change and the
   * stored slot stays booked.
   */
  function DoctorCancel(db: Db, docId: Id, appointmentId: Id): (r: Reply)
    ensures r.db.doctors == db.doctors
    ensures appointmentId == "" ==> r == Reply(Failed(MissingId), db)
    ensures appointmentId != "" && appointmentId !in db.appointments ==> r == Reply(Failed(AppointmentNotFound), db)
    ensures appointmentId in db.appointments && appointmentId != "" ==>
      var a := db.appointments[appointmentId];
      (a.docId != docId ==> r == Reply(Failed(Unauthorized), db))
      && (a.docId == docId && a.cancelled ==> r == Reply(Failed(AlreadyCancelled), db))
      && (a.docId == docId && !a.cancelled ==>
            r.db == db.(appointments := db.appointments[appointmentId := a.(cancelled := true)])
            && (r.outcome == Done <==> docId in db.doctors)
            && (r.outcome != Done ==> r.outcome == Failed(DoctorNotFound)))
  {
    if appointmentId == "" then Reply(Failed(MissingId), db)
    else if appointmentId !in db.appointments then Reply(Failed(AppointmentNotFound), db)
    else
      var a := db.appointments[appointmentId];
      if a.docId != docId then Reply(Failed(Unauthorized), db)
      else if a.cancelled then Reply(Failed(AlreadyCancelled), db)
      else
        var marked := PutAppointment(db, appointmentId, a.(cancelled := true));
        if docId !in db.doctors then Reply(Failed(DoctorNotFound), marked)
        else Reply(Done, marked)
  }

  /**
   * The doctor's cancellation with the release saved (the path marked modified before
   * `doctor.save()`): as above, and in addition the time is filtered out of the date's
   * list and the date key dropped once empty.
   */
  function DoctorCancelSaved(db: Db, docId: Id, appointmentId: Id): (r: Reply)
    ensures r.outcome == DoctorCancel(db, docId, appointmentId).outcome
    ensures r.outcome != Done ==> r.db == DoctorCancel(db, docId, appointmentId).db
    ensures r.outcome == Done ==>
      var a := db.appointments[appointmentId];
      r.db == DoctorCancel(db, docId, appointmentId).db.(doctors := db.doctors[docId := db.doctors[docId].(slotsBooked :=
                Slots.ReleaseDropEmpty(db.doctors[docId].slotsBooked, a.slotDate, a.slotTime))])
  {
    var r := DoctorCancel(db, docId, appointmentId);
    if r.outcome != Done then r
    else
      var a := db.appointments[appointmentId];
      var doc := db.doctors[docId];
      Reply(Done, PutDoctor(r.db, docId,
                            doc.(slotsBooked := Slots.ReleaseDropEmpty(doc.slotsBooked, a.slotDate, a.slotTime))))
  }

  /**
   * The saved cancellation keeps the bookings in agreement, and on a consistent clinic it
   * never stops half-way at the doctor lookup.
   */
  lemma DoctorCancelSavedConsistent(db: Db, docId: Id, appointmentId: Id)
    requires Consistent(db)
    ensures Consistent(DoctorCancelSaved(db, docId, appointmentId).db)
    ensures DoctorCancelSaved(db, docId, appointmentId).outcome != Failed(DoctorNotFound)
  {
    if appointmentId != "" && appointmentId in db.appointments {
      var a := db.appointments[appointmentId];
      if a.docId == docId && !a.cancelled {
        var doc := db.doctors[docId];
        ReleasesRelease(doc.slotsBooked, a.slotDate, a.slotTime);
        CancelLiveConsistent(db, appointmentId,
                             doc.(slotsBooked := Slots.ReleaseDropEmpty(doc.slotsBooked, a.slotDate, a.slotTime)));
      }
    }
  }

  /**
   * As written, a successful doctor cancellation of a live appointment on a consistent
   * clinic leaves its slot booked with no live holder, so the agreement breaks, and any
   * later booking of that slot is refused as taken.
   */
  lemma DoctorCancelLeavesSlotBooked(db: Db, docId: Id, appointmentId: Id)
    requires Consistent(db)
    requires appointmentId != "" && appointmentId in db.appointments
    requires db.appointments[appointmentId].docId == docId && !db.appointments[appointmentId].cancelled
    ensures var r := DoctorCancel(db, docId, appointmentId);
      var a := db.appointments[appointmentId];
      r.outcome == Done && r.db.appointments[appointmentId].cancelled
      && Slots.Booked(r.db.doctors[docId].slotsBooked, a.slotDate, a.slotTime)
      && !Consistent(r.db)
  {
    var r := DoctorCancel(db, docId, appointmentId).db;
    var a := db.appointments[appointmentId];
    assert docId in db.doctors && Slots.Booked(db.doctors[docId].slotsBooked, a.slotDate, a.slotTime);
    forall id | id in r.appointments
      ensures !Holds(r.appointments[id], docId, a.slotDate, a.slotTime)
    {
      if id != appointmentId {
        assert r.appointments[id] == db.appointments[id];
      }
    }
    assert !BookedHeld(r);
  }

  // ---------------------------------------------------------------------------------
  // requestWorkingSchedule

  /**
   * `requestWorkingSchedule`: refused without a request object, with the first failing
   * entry's error (entries in `keys` order, dates compared by `rule`), or for an unknown
   * doctor; otherwise the request is stored and the approved schedule kept.  The handler
   * as written compares instants (`ExactInstant`); `WholeDays` is the corrected window.
   * `now` is the instant of `new Date()` and `parse` is `new Date(dateStr)`.
   */
  function RequestSchedule(db: Db, rule: Schedule.WindowRule, docId: Id, request: Option<SlotMap>, keys: seq<string>,
                           now: Instant, parse: string -> Option<Instant>): (r: Reply)
    requires ValidInstant(now)
    requires request.Some? ==> Schedule.EntryOrder(request.value, keys)
    ensures r.outcome.Failed? ==> r.db == db
    ensures request.None? ==> r.outcome == Failed(InvalidRequest)
    ensures r.outcome == Done <==>
      request.Some? && Schedule.RequestAccepted(rule, request.value, now, parse)
      && docId in db.doctors
    ensures r.outcome.Failed? && r.outcome.failure.ScheduleRejected? ==>
      request.Some? && var k := r.outcome.failure.error.Key();
      k in request.value && !Schedule.EntryAccepted(rule, k, request.value[k], now, parse)
    ensures r.outcome == Done ==>
      r.db == PutDoctor(db, docId, db.doctors[docId].(workingScheduleRequest := request.value))
  {
    if request.None? then Reply(Failed(InvalidRequest), db)
    else
      var req := request.value;
      Schedule.FirstErrorIffRefused(rule, req, keys, now, parse);
      Schedule.FirstErrorMeaning(rule, req, keys, now, parse);
      match Schedule.FirstError(rule, req, keys, now, parse)
      case Some(e) => Reply(Failed(ScheduleRejected(e)), db)
      case None =>
        if docId !in db.doctors then Reply(Failed(DoctorNotFound), db)
        else Reply(Done, PutDoctor(db, docId, db.doctors[docId].(workingScheduleRequest := request.value)))
  }

  /** A schedule request leaves the bookings, and the schedule patients book against, alone. */
  lemma RequestScheduleConsistent(db: Db, rule: Schedule.WindowRule, docId: Id, request: Option<SlotMap>, keys: seq<string>,
                                  now: Instant, parse: string -> Option<Instant>)
    requires ValidInstant(now)
    requires request.Some? ==> Schedule.EntryOrder(request.value, keys)
    requires Consistent(db)
    ensures Consistent(RequestSchedule(db, rule, docId, request, keys, now, parse).db)
    ensures docId in db.doctors ==>
      RequestSchedule(db, rule, docId, request, keys, now, parse).db.doctors[docId].workingSchedule
        == db.doctors[docId].workingSchedule
  {
    var r := RequestSchedule(db, rule, docId, request, keys, now, parse);
    SameBookingsConsistent(db, r.db);
  }

  /**
   * What the schedule page submits reaches the stored request under the corrected window,
   * while the handler as written refuses it once the day has begun.
   */
  lemma EditorRequestOutcome(db: Db, docId: Id, now: Instant, actions: seq<Schedule.EditorAction>,
                             keys: seq<string>, parse: string -> Option<Instant>)
    requires ValidInstant(now) && Schedule.ParsesIsoKeys(parse) && docId in db.doctors
    requires Schedule.EntryOrder(Schedule.RunEditor(Schedule.Opened(now.date), actions).schedule, keys)
    ensures var req := Schedule.RunEditor(Schedule.Opened(now.date), actions).schedule;
      RequestSchedule(db, Schedule.WholeDays, docId, Some(req), keys, now, parse).outcome == Done
      && (now.msOfDay > 0 ==>
            RequestSchedule(db, Schedule.ExactInstant, docId, Some(req), keys, now, parse).outcome.Failed?)
  {
    Schedule.EditorSubmissionAcceptedByDay(now, actions, parse);
    if now.msOfDay > 0 {
      Schedule.EditorSubmissionRefusedAsWritten(now, actions, parse);
    }
  }

  // ---------------------------------------------------------------------------------
  // diagnoses

  /**
   * `createDiagnosis`: refused when the appointment id, symptoms, diagnosis text,
   * treatments or medications are missing, when medications is empty, when a medication
   * lacks its dosage or duration, for an unknown appointment, and when the diagnosis
   * fails validation; otherwise the diagnosis is stored with the appointment's doctor
   * and patient, the bill total and a pending bill, and the appointment is marked
   * completed and linked to it.  Any doctor may diagnose any appointment.
   */
  function CreateDiagnosis(db: Db, appointmentId: Id, symptoms: Option<seq<string>>, diagnosis: string,
                           treatments: Option<seq<string>>, medications: Option<seq<Medication>>,
                           notes: string, newId: Id): (r: Reply)
    requires newId !in db.diagnoses
    ensures r.outcome.Failed? ==> r.db == db
    ensures (appointmentId == "" || symptoms.None? || diagnosis == "" || treatments.None? || medications.None?)
            ==> r.outcome == Failed(MissingDetails)
    ensures r.outcome == Done <==>
      appointmentId != "" && symptoms.Some? && diagnosis != "" && treatments.Some? && medications.Some?
      && |medications.value| > 0 && appointmentId in db.appointments
      && db.appointments[appointmentId].docId != "" && db.appointments[appointmentId].userId != ""
      && forall k :: 0 <= k < |medications.value| ==> MedicationValid(medications.value[k])
    ensures r.outcome == Done ==>
      var a := db.appointments[appointmentId];
      r.db.diagnoses == db.diagnoses[newId := Diagnosis(appointmentId, a.docId, a.userId, symptoms.value,
                                                          diagnosis, treatments.value, notes,
                                                          medications.value, Total(medications.value), BillPending)]
      && r.db.appointments == db.appointments[appointmentId := a.(status := VisitCompleted, diagnosisId := Some(newId))]
      && r.db.doctors == db.doctors && r.db.users == db.users && r.db.order == db.order
  {
    if appointmentId == "" || symptoms.None? || diagnosis == "" || treatments.None? || medications.None? then
      Reply(Failed(MissingDetails), db)
    else if |medications.value| == 0 then Reply(Failed(InvalidMedications), db)
    else if !AllComplete(medications.value) then Reply(Failed(IncompleteMedication), db)
    else if appointmentId !in db.appointments then Reply(Failed(AppointmentNotFound), db)
    else
      var a := db.appointments[appointmentId];
      var meds := medications.value;
      match NewDiagnosis(appointmentId, a.docId, a.userId, symptoms.value, diagnosis, treatments.value,
                         notes, meds, Total(meds))
      case None => Reply(Failed(ValidationFailed), db)
      case Some(dg) =>
        Reply(Done, PutAppointment(db.(diagnoses := db.diagnoses[newId := dg]), appointmentId,
                                   a.(status := VisitCompleted, diagnosisId := Some(newId))))
  }

  /**
   * A created diagnosis keeps every appointment linked to a diagnosis naming it back,
   * leaves the bookings alone, and bills a total that is not negative when no price is.
   */
  lemma CreateDiagnosisConsistent(db: Db, appointmentId: Id, symptoms: Option<seq<string>>, diagnosis: string,
                                  treatments: Option<seq<string>>, medications: Option<seq<Medication>>,
                                  notes: string, newId: Id)
    requires newId !in db.diagnoses && Consistent(db) && DiagnosesLinked(db)
    ensures var r := CreateDiagnosis(db, appointmentId, symptoms, diagnosis, treatments, medications, notes, newId);
      Consistent(r.db) && DiagnosesLinked(r.db)
      && (r.outcome == Done && (forall k :: 0 <= k < |medications.value| ==> PriceOrZero(medications.value[k]) >= 0)
          ==> r.db.diagnoses[newId].totalAmount >= 0)
  {
    var r := CreateDiagnosis(db, appointmentId, symptoms, diagnosis, treatments, medications, notes, newId);
    if r.outcome == Done {
      var a := db.appointments[appointmentId];
      assert Booking(r.db.appointments[appointmentId]) == Booking(a);
      SameBookingsConsistent(db, r.db);
      forall id | id in r.db.appointments && r.db.appointments[id].diagnosisId.Some?
        ensures r.db.appointments[id].diagnosisId.value in r.db.diagnoses
                && r.db.diagnoses[r.db.appointments[id].diagnosisId.value].appointmentId == id
      {
        if id != appointmentId {
          assert r.db.appointments[id] == db.appointments[id];
        }
      }
      if forall k :: 0 <= k < |medications.value| ==> PriceOrZero(medications.value[k]) >= 0 {
        TotalNonNegative(medications.value);
      }
    }
  }

  /**
   * `updateDiagnosis`: refused without an id, when symptoms, diagnosis text or treatments
   * are missing or medications is empty, when a medication lacks its dosage or duration,
   * or for an unknown diagnosis; otherwise the clinical fields and the total are replaced.
   * The update runs without schema validation, and the ids and the bill status are kept.
   */
  function UpdateDiagnosis(db: Db, diagnosisId: Id, symptoms: Option<seq<string>>, diagnosis: string,
                           treatments: Option<seq<string>>, medications: Option<seq<Medication>>,
                           notes: string): (r: Reply)
    ensures r.outcome.Failed? ==> r.db == db
    ensures diagnosisId == "" ==> r.outcome == Failed(MissingId)
    ensures r.outcome == Done <==>
      diagnosisId != "" && symptoms.Some? && diagnosis != "" && treatments.Some? && medications.Some?
      && |medications.value| > 0 && AllComplete(medications.value) && diagnosisId in db.diagnoses
    ensures r.outcome == Done ==>
      var d := db.diagnoses[diagnosisId];
      r.db == db.(diagnoses := db.diagnoses[diagnosisId := d.(symptoms := symptoms.value, diagnosis := diagnosis,
                   treatments := treatments.value, medications := medications.value, notes := notes,
                   totalAmount := Total(medications.value))])
  {
    if diagnosisId == "" then Reply(Failed(MissingId), db)
    else if symptoms.None? || diagnosis == "" || treatments.None? || medications.None? || |medications.value| == 0 then
      Reply(Failed(MissingDetails), db)
    else if !AllComplete(medications.value) then Reply(Failed(IncompleteMedication), db)
    else if diagnosisId !in db.diagnoses then Reply(Failed(DiagnosisNotFound), db)
    else
      var d := db.diagnoses[diagnosisId];
      Reply(Done, db.(diagnoses := db.diagnoses[diagnosisId := d.(symptoms := symptoms.value, diagnosis := diagnosis,
                   treatments := treatments.value, medications := medications.value, notes := notes,
                   totalAmount := Total(medications.value))]))
  }

  /** An update keeps the links and the bookings, and sending the same update twice is the same as once. */
  lemma UpdateDiagnosisConsistent(db: Db, diagnosisId: Id, symptoms: Option<seq<string>>, diagnosis: string,
                                  treatments: Option<seq<string>>, medications: Option<seq<Medication>>,
                                  notes: string)
    requires Consistent(db) && DiagnosesLinked(db)
    ensures var r := UpdateDiagnosis(db, diagnosisId, symptoms, diagnosis, treatments, medications, notes);
      Consistent(r.db) && DiagnosesLinked(r.db)
      && UpdateDiagnosis(r.db, diagnosisId, symptoms, diagnosis, treatments, medications, notes) == r
  {
    var r := UpdateDiagnosis(db, diagnosisId, symptoms, diagnosis, treatments, medications, notes);
    SameBookingsConsistent(db, r.db);
  }

  /**
   * `deleteDiagnosis`: refused without an id or for an unknown diagnosis; otherwise the
   * diagnosis is removed and the appointment it names, when it exists, loses its link and
   * goes back to pending.
   */
  function DeleteDiagnosis(db: Db, diagnosisId: Id): (r: Reply)
    ensures r.outcome.Failed? ==> r.db == db
    ensures r.outcome == Done <==> diagnosisId != "" && diagnosisId in db.diagnoses
    ensures r.outcome == Done ==>
      var aid := db.diagnoses[diagnosisId].appointmentId;
      r.db.diagnoses == db.diagnoses - {diagnosisId}
      && (aid in db.appointments ==>
            r.db.appointments == db.appointments[aid := db.appointments[aid].(diagnosisId := None, status := VisitPending)])
      && (aid !in db.appointments ==> r.db.appointments == db.appointments)
      && r.db.doctors == db.doctors && r.db.users == db.users && r.db.order == db.order
  {
    if diagnosisId == "" then Reply(Failed(MissingId), db)
    else if diagnosisId !in db.diagnoses then Reply(Failed(DiagnosisNotFound), db)
    else
      var aid := db.diagnoses[diagnosisId].appointmentId;
      var removed := db.(diagnoses := db.diagnoses - {diagnosisId});
      if aid in db.appointments then
        Reply(Done, PutAppointment(removed, aid, db.appointments[aid].(diagnosisId := None, status := VisitPending)))
      else Reply(Done, removed)
  }

  /** Deleting a diagnosis keeps every remaining link pointing at a stored diagnosis. */
  lemma DeleteDiagnosisConsistent(db: Db, diagnosisId: Id)
    requires Consistent(db) && DiagnosesLinked(db)
    ensures Consistent(DeleteDiagnosis(db, diagnosisId).db) && DiagnosesLinked(DeleteDiagnosis(db, diagnosisId).db)
  {
    var r := DeleteDiagnosis(db, diagnosisId);
    if r.outcome == Done {
      var aid := db.diagnoses[diagnosisId].appointmentId;
      if aid in db.appointments {
        assert Booking(r.db.appointments[aid]) == Booking(db.appointments[aid]);
      }
      SameBookingsConsistent(db, r.db);
      forall id | id in r.db.appointments && r.db.appointments[id].diagnosisId.Some?
        ensures r.db.appointments[id].diagnosisId.value in r.db.diagnoses
                && r.db.diagnoses[r.db.appointments[id].diagnosisId.value].appointmentId == id
      {
        assert r.db.appointments[id] == db.appointments[id];
      }
    }
  }

  /**
   * `updatePaymentStatus`: refused for an unknown diagnosis or another doctor's; the new
   * status is then saved, and a value other than "pending" or "paid" fails validation.
   */
  function UpdateBillStatus(db: Db, docId: Id, diagnosisId: Id, paymentStatus: string): (r: Reply)
    ensures r.outcome.Failed? ==> r.db == db
    ensures r.outcome == Done <==>
      diagnosisId in db.diagnoses && db.diagnoses[diagnosisId].doctorId == docId
      && ParseBillStatus(paymentStatus).Some?
    ensures r.outcome == Done ==>
      r.db == db.(diagnoses := db.diagnoses[diagnosisId := db.diagnoses[diagnosisId].(paymentStatus :=
                   ParseBillStatus(paymentStatus).value)])
      && BillStatusName(r.db.diagnoses[diagnosisId].paymentStatus) == paymentStatus
  {
    if diagnosisId !in db.diagnoses then Reply(Failed(DiagnosisNotFound), db)
    else
      var d := db.diagnoses[diagnosisId];
      if d.doctorId != docId then Reply(Failed(Unauthorized), db)
      else
        match ParseBillStatus(paymentStatus)
        case None => Reply(Failed(ValidationFailed), db)
        case Some(s) => Reply(Done, db.(diagnoses := db.diagnoses[diagnosisId := d.(paymentStatus := s)]))
  }

  /** Setting the bill status keeps the links and the bookings. */
  lemma UpdateBillStatusConsistent(db: Db, docId: Id, diagnosisId: Id, paymentStatus: string)
    requires Consistent(db) && DiagnosesLinked(db)
    ensures Consistent(UpdateBillStatus(db, docId, diagnosisId, paymentStatus).db)
    ensures DiagnosesLinked(UpdateBillStatus(db, docId, diagnosisId, paymentStatus).db)
  {
    SameBookingsConsistent(db, UpdateBillStatus(db, docId, diagnosisId, paymentStatus).db);
  }
}
