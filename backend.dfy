/**
 * The backend's stored state as the controllers see it: the four collections, the reply
 * a handler sends, and the reasons it refuses a request.  Every handler is modelled as a
 * function from the state before the request to its reply and the state after it, with
 * the writes it made before any failure kept in that state.
 */
module Backend {
  import opened Seqs
  import opened Records
  import Schedule

  datatype Db = Db(
    doctors: map<Id, Doctor>,
    users: map<Id, UserProfile>,
    appointments: map<Id, Appointment>,
    /** The order `appointmentModel.find({})` returns the appointments in: oldest first. */
    order: seq<Id>,
    diagnoses: map<Id, Diagnosis>)

  /** `order` lists every stored appointment exactly once. */
  predicate OrderValid(db: Db) {
    NoDuplicates(db.order)
    && (forall k :: 0 <= k < |db.order| ==> db.order[k] in db.appointments)
    && (forall id :: id in db.appointments ==> id in db.order)
  }

  /** Why a handler answers `success: false`. */
  datatype Failure =
    | MissingDetails        // a required request field is absent
    | MissingId             // the id parameter is absent
    | NameTooLong | EmailTooLong | NameInvalid | InvalidEmail | EmailDomain
    | WeakPassword | EmailTaken
    | NoTimeChosen          // "Chọn giờ"
    | DoctorUnavailable     // no such doctor, or not available
    | SlotUnavailable       // the time is already booked on that date
    | AppointmentNotFound
    | DoctorNotFound
    | DiagnosisNotFound
    | Unauthorized          // the record belongs to another user or doctor
    | AlreadyCancelled
    | AlreadyConfirmed
    | InvalidRequest        // no schedule request object
    | ScheduleRejected(error: Schedule.ScheduleError) // a date or time of the request is refused
    | NoRequest             // nothing to approve
    | InvalidMedications    // medications is not a non-empty array
    | IncompleteMedication  // a medication lacks its dosage or duration
    | ValidationFailed      // the document was refused by its schema on save
    | ServerError           // an exception thrown after some writes were made

  datatype Outcome = Done | Failed(failure: Failure)

  datatype Reply = Reply(outcome: Outcome, db: Db)

  /** The stored appointment `id` replaced by `a`. */
  function PutAppointment(db: Db, id: Id, a: Appointment): (r: Db)
    ensures r.appointments == db.appointments[id := a]
    ensures r.doctors == db.doctors && r.users == db.users && r.order == db.order
    ensures r.diagnoses == db.diagnoses
  {
    db.(appointments := db.appointments[id := a])
  }

  /** The stored doctor `id` replaced by `d`. */
  function PutDoctor(db: Db, id: Id, d: Doctor): (r: Db)
    ensures r.doctors == db.doctors[id := d]
    ensures r.appointments == db.appointments && r.users == db.users && r.order == db.order
    ensures r.diagnoses == db.diagnoses
  {
    db.(doctors := db.doctors[id := d])
  }

  /** Storing over an existing appointment keeps `order` valid. */
  lemma PutAppointmentOrder(db: Db, id: Id, a: Appointment)
    requires OrderValid(db) && id in db.appointments
    ensures OrderValid(PutAppointment(db, id, a))
  {
  }
}
