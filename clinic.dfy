/**
 * The handlers as the controllers run them: one object holding the four collections,
 * each route a method that reads and writes them step by step, in the order the handler
 * makes its checks and its writes, including the writes made before a failure.  Each
 * method's result and new state are those of the handler's function model.
 */
module Clinic {
  import opened Wrappers
  import opened Seqs
  import opened Text
  import opened Calendar
  import opened Records
  import opened Medications
  import opened Backend
  import Slots
  import Schedule
  import UserController
  import DoctorController
  import AdminController
  import Requests

  class ClinicDb {
    var doctors: map<Id, Doctor>
    var users: map<Id, UserProfile>
    var appointments: map<Id, Appointment>
    var order: seq<Id>
    var diagnoses: map<Id, Diagnosis>

    function State(): Db
      reads this
    {
      Db(doctors, users, appointments, order, diagnoses)
    }

    constructor()
      ensures State() == Db(map[], map[], map[], [], map[])
    {
      doctors := map[];
      users := map[];
      appointments := map[];
      order := [];
      diagnoses := map[];
    }

    // -------------------------------------------------------------------------------
    // userController

    method RegisterUser(name: string, email: string, password: string, isEmail: string -> bool, newId: Id)
      returns (outcome: Outcome)
      requires newId !in users
      modifies this
      ensures var r := UserController.Register(old(State()), name, email, password, isEmail, newId);
        outcome == r.outcome && State() == r.db
      ensures Requests.Good(old(State())) ==> Requests.Good(State())
    {
      if Requests.Good(State()) {
        Requests.DispatchKeepsGood(State(), Requests.RegisterUser(name, email, password, isEmail, newId));
      }
      var n := Trim(name);
      var e := ToLower(Trim(email));
      var err := UserController.RegistrationError(State(), n, e, password, isEmail);
      if err.Some? {
        return Failed(err.value);
      }
      users := users[newId := UserProfile(n, e)];
      return Done;
    }

    method BookAppointment(userId: Id, docId: Id, slotDate: string, slotTime: string, now: int, newId: Id)
      returns (outcome: Outcome)
      requires newId !in appointments
      modifies this
      ensures var r := UserController.Book(old(State()), userId, docId, slotDate, slotTime, now, newId);
        outcome == r.outcome && State() == r.db
      ensures Requests.Good(old(State())) ==> Requests.Good(State())
    {
      if Requests.Good(State()) {
        Requests.DispatchKeepsGood(State(), Requests.BookAppointment(userId, docId, slotDate, slotTime, now, newId));
      }
      if slotTime == "" {
        return Failed(NoTimeChosen);
      }
      if docId !in doctors || !doctors[docId].available {
        return Failed(DoctorUnavailable);
      }
      var doc := doctors[docId];
      var slots := doc.slotsBooked;
      if slotDate in slots && slotTime in slots[slotDate] {
        return Failed(SlotUnavailable);
      }
      if slotDate !in slots {
        slots := slots[slotDate := []];
      }
      slots := slots[slotDate := slots[slotDate] + [slotTime]];
      var userData := if userId in users then Some(users[userId]) else None;
      var a := NewAppointment(userId, docId, slotDate, slotTime, userData, doc.profile.(password := ""), now);
      if a.None? {
        return Failed(ValidationFailed);
      }
      appointments := appointments[newId := a.value];
      order := order + [newId];
      assert slots == Slots.AddTime(doc.slotsBooked, slotDate, slotTime);
      doctors := doctors[docId := doc.(slotsBooked := slots)];
      return Done;
    }

    /** The patient's cancellation, as written. */
    method CancelAppointment(userId: Id, appointmentId: Id) returns (outcome: Outcome)
      modifies this
      ensures var r := UserController.Cancel(old(State()), userId, appointmentId);
        outcome == r.outcome && State() == r.db
    {
      if appointmentId !in appointments {
        return Failed(AppointmentNotFound);
      }
      var a := appointments[appointmentId];
      if a.userId != userId {
        return Failed(Unauthorized);
      }
      appointments := appointments[appointmentId := a.(cancelled := true)];
      if a.docId !in doctors {
        return Failed(ServerError);
      }
      var doc := doctors[a.docId];
      var slots := doc.slotsBooked;
      if a.slotDate !in slots {
        return Failed(ServerError);
      }
      slots := slots[a.slotDate := Without(slots[a.slotDate], a.slotTime)];
      doctors := doctors[a.docId := doc.(slotsBooked := slots)];
      return Done;
    }

    /** The patient's deletion, as written. */
    method DeleteAppointment(userId: Id, appointmentId: Id) returns (outcome: Outcome)
      modifies this
      ensures var r := UserController.Delete(old(State()), userId, appointmentId);
        outcome == r.outcome && State() == r.db
    {
      if appointmentId !in appointments {
        return Failed(AppointmentNotFound);
      }
      var a := appointments[appointmentId];
      if a.userId != userId {
        return Failed(Unauthorized);
      }
      if a.docId !in doctors {
        return Failed(DoctorNotFound);
      }
      var doc := doctors[a.docId];
      var slots := doc.slotsBooked;
      if a.slotDate in slots {
        slots := slots[a.slotDate := Without(slots[a.slotDate], a.slotTime)];
        if |slots[a.slotDate]| == 0 {
          slots := slots - {a.slotDate};
        }
      }
      assert slots == Slots.ReleaseDropEmpty(doc.slotsBooked, a.slotDate, a.slotTime);
      doctors := doctors[a.docId := doc.(slotsBooked := slots)];
      appointments := appointments - {appointmentId};
      order := Without(order, appointmentId);
      return Done;
    }

    method RequestPayment(userId: Id, appointmentId: Id) returns (outcome: Outcome)
      modifies this
      ensures var r := UserController.RequestPay(old(State()), userId, appointmentId);
        outcome == r.outcome && State() == r.db
      ensures Requests.Good(old(State())) ==> Requests.Good(State())
    {
      if Requests.Good(State()) {
        Requests.DispatchKeepsGood(State(), Requests.RequestPayment(userId, appointmentId));
      }
      if appointmentId !in appointments {
        return Failed(AppointmentNotFound);
      }
      var a := appointments[appointmentId];
      if a.userId != userId {
        return Failed(Unauthorized);
      }
      if a.paymentStatus == PaymentConfirmed {
        return Failed(AlreadyConfirmed);
      }
      appointments := appointments[appointmentId := a.(paymentStatus := PaymentPending)];
      return Done;
    }

    // -------------------------------------------------------------------------------
    // doctorController

    method ChangeAvailability(docId: Id) returns (outcome: Outcome)
      modifies this
      ensures var r := DoctorController.ChangeAvailability(old(State()), docId);
        outcome == r.outcome && State() == r.db
      ensures Requests.Good(old(State())) ==> Requests.Good(State())
    {
      if Requests.Good(State()) {
        Requests.DispatchKeepsGood(State(), Requests.ChangeAvailability(docId));
      }
      if docId !in doctors {
        return Failed(DoctorNotFound);
      }
      doctors := doctors[docId := doctors[docId].(available := !doctors[docId].available)];
      return Done;
    }

    /**
     * The doctor's cancellation as written: the appointment's mark is saved, and the
     * release made on the loaded doctor's schema-less `slots_booked` is not.
     */
    method DoctorCancelAppointment(docId: Id, appointmentId: Id) returns (outcome: Outcome)
      modifies this
      ensures var r := DoctorController.DoctorCancel(old(State()), docId, appointmentId);
        outcome == r.outcome && State() == r.db
    {
      if appointmentId == "" {
        return Failed(MissingId);
      }
      if appointmentId !in appointments {
        return Failed(AppointmentNotFound);
      }
      var a := appointments[appointmentId];
      if a.docId != docId {
        return Failed(Unauthorized);
      }
      if a.cancelled {
        return Failed(AlreadyCancelled);
      }
      appointments := appointments[appointmentId := a.(cancelled := true)];
      if docId !in doctors {
        return Failed(DoctorNotFound);
      }
      // `doctor.save()` finds no tracked change on `slots_booked`, so `doctors` stays as it is.
      return Done;
    }

    method RequestWorkingSchedule(docId: Id, request: Option<SlotMap>, keys: seq<string>, now: Instant,
                                  parse: string -> Option<Instant>) returns (outcome: Outcome)
      requires ValidInstant(now)
      requires request.Some? ==> Schedule.EntryOrder(request.value, keys)
      modifies this
      ensures var r := DoctorController.RequestSchedule(old(State()), Schedule.ExactInstant, docId, request, keys, now, parse);
        outcome == r.outcome && State() == r.db
      ensures Requests.Good(old(State())) ==> Requests.Good(State())
    {
      if Requests.Good(State()) {
        Requests.RequestScheduleKeepsGood(State(), Schedule.ExactInstant, docId, request, keys, now, parse);
      }
      if request.None? {
        return Failed(InvalidRequest);
      }
      var err := Schedule.Validate(Schedule.ExactInstant, request.value, keys, now, parse);
      if err.Some? {
        return Failed(ScheduleRejected(err.value));
      }
      if docId !in doctors {
        return Failed(DoctorNotFound);
      }
      doctors := doctors[docId := doctors[docId].(workingScheduleRequest := request.value)];
      return Done;
    }

    method CreateDiagnosis(appointmentId: Id, symptoms: Option<seq<string>>, diagnosis: string,
                           treatments: Option<seq<string>>, medications: Option<seq<Medication>>,
                           notes: string, newId: Id) returns (outcome: Outcome)
      requires newId !in diagnoses
      modifies this
      ensures var r := DoctorController.CreateDiagnosis(old(State()), appointmentId, symptoms, diagnosis,
                                                        treatments, medications, notes, newId);
        outcome == r.outcome && State() == r.db
      ensures Requests.Good(old(State())) ==> Requests.Good(State())
    {
      if Requests.Good(State()) {
        Requests.DispatchKeepsGood(State(), Requests.CreateDiagnosis(appointmentId, symptoms, diagnosis, treatments, medications, notes, newId));
      }
      if appointmentId == "" || symptoms.None? || diagnosis == "" || treatments.None? || medications.None? {
        return Failed(MissingDetails);
      }
      var meds := medications.value;
      if |meds| == 0 {
        return Failed(InvalidMedications);
      }
      var bad := FirstIncomplete(meds);
      if bad.Some? {
        return Failed(IncompleteMedication);
      }
      if appointmentId !in appointments {
        return Failed(AppointmentNotFound);
      }
      var a := appointments[appointmentId];
      var d := NewDiagnosis(appointmentId, a.docId, a.userId, symptoms.value, diagnosis, treatments.value,
                            notes, meds, Total(meds));
      if d.None? {
        return Failed(ValidationFailed);
      }
      diagnoses := diagnoses[newId := d.value];
      appointments := appointments[appointmentId := a.(status := VisitCompleted, diagnosisId := Some(newId))];
      return Done;
    }

    method UpdateDiagnosis(diagnosisId: Id, symptoms: Option<seq<string>>, diagnosis: string,
                           treatments: Option<seq<string>>, medications: Option<seq<Medication>>,
                           notes: string) returns (outcome: Outcome)
      modifies this
      ensures var r := DoctorController.UpdateDiagnosis(old(State()), diagnosisId, symptoms, diagnosis,
                                                        treatments, medications, notes);
        outcome == r.outcome && State() == r.db
      ensures Requests.Good(old(State())) ==> Requests.Good(State())
    {
      if Requests.Good(State()) {
        Requests.DispatchKeepsGood(State(), Requests.UpdateDiagnosis(diagnosisId, symptoms, diagnosis, treatments, medications, notes));
      }
      if diagnosisId == "" {
        return Failed(MissingId);
      }
      if symptoms.None? || diagnosis == "" || treatments.None? || medications.None? || |medications.value| == 0 {
        return Failed(MissingDetails);
      }
      var bad := FirstIncomplete(medications.value);
      if bad.Some? {
        return Failed(IncompleteMedication);
      }
      if diagnosisId !in diagnoses {
        return Failed(DiagnosisNotFound);
      }
      var d := diagnoses[diagnosisId];
      diagnoses := diagnoses[diagnosisId := d.(symptoms := symptoms.value, diagnosis := diagnosis,
                                               treatments := treatments.value, medications := medications.value,
                                               notes := notes, totalAmount := Total(medications.value))];
      return Done;
    }

    method DeleteDiagnosis(diagnosisId: Id) returns (outcome: Outcome)
      modifies this
      ensures var r := DoctorController.DeleteDiagnosis(old(State()), diagnosisId);
        outcome == r.outcome && State() == r.db
      ensures Requests.Good(old(State())) ==> Requests.Good(State())
    {
      if Requests.Good(State()) {
        Requests.DispatchKeepsGood(State(), Requests.DeleteDiagnosis(diagnosisId));
      }
      if diagnosisId == "" {
        return Failed(MissingId);
      }
      if diagnosisId !in diagnoses {
        return Failed(DiagnosisNotFound);
      }
      var aid := diagnoses[diagnosisId].appointmentId;
      diagnoses := diagnoses - {diagnosisId};
      if aid in appointments {
        appointments := appointments[aid := appointments[aid].(diagnosisId := None, status := VisitPending)];
      }
      return Done;
    }

    method UpdatePaymentStatus(docId: Id, diagnosisId: Id, paymentStatus: string) returns (outcome: Outcome)
      modifies this
      ensures var r := DoctorController.UpdateBillStatus(old(State()), docId, diagnosisId, paymentStatus);
        outcome == r.outcome && State() == r.db
      ensures Requests.Good(old(State())) ==> Requests.Good(State())
    {
      if Requests.Good(State()) {
        Requests.DispatchKeepsGood(State(), Requests.UpdatePaymentStatus(docId, diagnosisId, paymentStatus));
      }
      if diagnosisId !in diagnoses {
        return Failed(DiagnosisNotFound);
      }
      var d := diagnoses[diagnosisId];
      if d.doctorId != docId {
        return Failed(Unauthorized);
      }
      var s := ParseBillStatus(paymentStatus);
      if s.None? {
        return Failed(ValidationFailed);
      }
      diagnoses := diagnoses[diagnosisId := d.(paymentStatus := s.value)];
      return Done;
    }

    // -------------------------------------------------------------------------------
    // adminController

    method AddDoctor(name: string, email: string, password: string, speciality: string, degree: string,
                     experience: string, about: string, addressText: string, isEmail: string -> bool,
                     hashedPassword: string, imageUrl: Option<string>, address: Option<string>, newId: Id)
      returns (outcome: Outcome)
      requires newId !in doctors
      modifies this
      ensures var r := AdminController.AddDoctor(old(State()), name, email, password, speciality, degree,
                                                 experience, about, addressText, isEmail, hashedPassword,
                                                 imageUrl, address, newId);
        outcome == r.outcome && State() == r.db
      ensures Requests.Good(old(State())) ==> Requests.Good(State())
    {
      if Requests.Good(State()) {
        Requests.DispatchKeepsGood(State(), Requests.AddDoctor(name, email, password, speciality, degree, experience, about, addressText, isEmail,
                                                  hashedPassword, imageUrl, address, newId));
      }
      if name == "" || email == "" || password == "" || speciality == "" || degree == ""
         || experience == "" || about == "" || addressText == "" {
        return Failed(MissingDetails);
      }
      if !isEmail(email) {
        return Failed(InvalidEmail);
      }
      if |password| < 8 {
        return Failed(WeakPassword);
      }
      if imageUrl.None? || address.None? {
        return Failed(ServerError);
      }
      var d := NewDoctor(DoctorProfile(name, email, hashedPassword, imageUrl.value, speciality, degree,
                                       experience, about, address.value));
      if d.None? {
        return Failed(ValidationFailed);
      }
      if AdminController.DoctorEmailUsed(State(), email) {
        return Failed(EmailTaken);
      }
      doctors := doctors[newId := d.value];
      return Done;
    }

    /** The admin's cancellation, as written. */
    method AppointmentCancel(appointmentId: Id) returns (outcome: Outcome)
      modifies this
      ensures var r := AdminController.AdminCancel(old(State()), appointmentId);
        outcome == r.outcome && State() == r.db
    {
      if appointmentId !in appointments {
        return Failed(AppointmentNotFound);
      }
      var a := appointments[appointmentId];
      appointments := appointments[appointmentId := a.(cancelled := true)];
      if a.docId !in doctors {
        return Failed(ServerError);
      }
      var doc := doctors[a.docId];
      var slots := doc.slotsBooked;
      if a.slotDate !in slots {
        return Failed(ServerError);
      }
      slots := slots[a.slotDate := Without(slots[a.slotDate], a.slotTime)];
      doctors := doctors[a.docId := doc.(slotsBooked := slots)];
      return Done;
    }

    method ConfirmPayment(appointmentId: Id) returns (outcome: Outcome)
      modifies this
      ensures var r := AdminController.ConfirmPayment(old(State()), appointmentId);
        outcome == r.outcome && State() == r.db
      ensures Requests.Good(old(State())) ==> Requests.Good(State())
    {
      if Requests.Good(State()) {
        Requests.DispatchKeepsGood(State(), Requests.ConfirmPayment(appointmentId));
      }
      if appointmentId == "" {
        return Failed(MissingId);
      }
      if appointmentId !in appointments {
        return Failed(AppointmentNotFound);
      }
      appointments := appointments[appointmentId := appointments[appointmentId].(paymentStatus := PaymentConfirmed)];
      return Done;
    }

    method ApproveWorkingSchedule(doctorId: Id) returns (outcome: Outcome)
      modifies this
      ensures var r := AdminController.Approve(old(State()), doctorId);
        outcome == r.outcome && State() == r.db
      ensures Requests.Good(old(State())) ==> Requests.Good(State())
    {
      if Requests.Good(State()) {
        Requests.DispatchKeepsGood(State(), Requests.ApproveWorkingSchedule(doctorId));
      }
      if doctorId !in doctors {
        return Failed(DoctorNotFound);
      }
      var doc := doctors[doctorId];
      if |doc.workingScheduleRequest| == 0 {
        return Failed(NoRequest);
      }
      doctors := doctors[doctorId := doc.(workingSchedule := doc.workingScheduleRequest, workingScheduleRequest := map[])];
      return Done;
    }
  }
}
