/**
 * The three stored record kinds (doctor, appointment, diagnosis), their enumerations and
 * the defaults and required-field validation the schemas apply when a record is created.
 * A missing string field is the empty string: Mongoose's `required` refuses both.
 */
module Records {
  import opened Wrappers

  /** A document id. */
  type Id = string

  /** A date key mapped to a list of `HH:MM` times (booked slots, schedules, requests). */
  type SlotMap = map<string, seq<string>>

  /** `paymentStatus` of an appointment. */
  datatype PaymentStatus = PaymentNone | PaymentPending | PaymentConfirmed

  /** `status` of an appointment. */
  datatype VisitStatus = VisitPending | VisitConfirmed | VisitCompleted | VisitCancelled

  /** `paymentStatus` of a diagnosis: a separate enumeration from the appointment's. */
  datatype BillStatus = BillPending | BillPaid

  function BillStatusName(b: BillStatus): string {
    match b
    case BillPending => "pending"
    case BillPaid => "paid"
  }

  /** The enum check Mongoose applies when a string is saved into a diagnosis' `paymentStatus`. */
  function ParseBillStatus(s: string): (r: Option<BillStatus>)
    ensures r.Some? <==> s == "pending" || s == "paid"
    ensures r.Some? ==> BillStatusName(r.value) == s
  {
    if s == "pending" then Some(BillPending)
    else if s == "paid" then Some(BillPaid)
    else None
  }

  lemma ParseBillStatusName(b: BillStatus)
    ensures ParseBillStatus(BillStatusName(b)) == Some(b)
  {
  }

  // ---------------------------------------------------------------------------------
  // Doctor

  /** The doctor fields the schema marks as required (the password stored already hashed). */
  datatype DoctorProfile = DoctorProfile(
    name: string, email: string, password: string, image: string, speciality: string,
    degree: string, experience: string, about: string, address: string)

  predicate ProfileComplete(p: DoctorProfile) {
    p.name != "" && p.email != "" && p.password != "" && p.image != "" && p.speciality != ""
    && p.degree != "" && p.experience != "" && p.about != "" && p.address != ""
  }

  datatype Doctor = Doctor(
    profile: DoctorProfile,
    available: bool,
    slotsBooked: SlotMap,
    workingSchedule: SlotMap,
    workingScheduleRequest: SlotMap)

  /**
   * A new doctor document: refused unless every required field is present; otherwise
   * available, with no booked slots, no approved schedule and no pending request.
   * Empty maps are stored as such (the schema sets `minimize: false`).
   */
  function NewDoctor(p: DoctorProfile): (r: Option<Doctor>)
    ensures r.Some? <==> ProfileComplete(p)
    ensures r.Some? ==> r.value.profile == p && r.value.available
    ensures r.Some? ==> (|r.value.slotsBooked| == 0 && |r.value.workingSchedule| == 0
                         && |r.value.workingScheduleRequest| == 0)
  {
    if ProfileComplete(p) then Some(Doctor(p, true, map[], map[], map[])) else None
  }

  // ---------------------------------------------------------------------------------
  // Appointment

  /** The user document as copied into an appointment (`select('-password')`). */
  datatype UserProfile = UserProfile(name: string, email: string)

  datatype Appointment = Appointment(
    userId: Id,
    docId: Id,
    slotDate: string,
    slotTime: string,
    userData: UserProfile,
    docData: DoctorProfile,
    date: int,
    cancelled: bool,
    paymentStatus: PaymentStatus,
    status: VisitStatus,
    diagnosisId: Option<Id>)

  /**
   * A new appointment document: refused when a required field is missing (an empty id,
   * date key or time, or no user data); otherwise not cancelled, unpaid, pending, and
   * without a diagnosis.
   */
  function NewAppointment(userId: Id, docId: Id, slotDate: string, slotTime: string,
                          userData: Option<UserProfile>, docData: DoctorProfile, date: int)
    : (r: Option<Appointment>)
    ensures r.Some? <==> userId != "" && docId != "" && slotDate != "" && slotTime != "" && userData.Some?
    ensures r.Some? ==> (!r.value.cancelled && r.value.paymentStatus == PaymentNone
                         && r.value.status == VisitPending && r.value.diagnosisId == None)
    ensures r.Some? ==> (r.value.userId == userId && r.value.docId == docId
                         && r.value.slotDate == slotDate && r.value.slotTime == slotTime)
  {
    if userId != "" && docId != "" && slotDate != "" && slotTime != "" && userData.Some? then
      Some(Appointment(userId, docId, slotDate, slotTime, userData.value, docData, date,
                       false, PaymentNone, VisitPending, None))
    else None
  }

  // ---------------------------------------------------------------------------------
  // Diagnosis

  /** A prescribed medication; `price` is None when the client sent no number. */
  datatype Medication = Medication(name: string, dosage: string, duration: string, price: Option<int>)

  /** The item shape the diagnosis schema requires. */
  predicate MedicationValid(m: Medication) {
    m.name != "" && m.dosage != "" && m.duration != "" && m.price.Some?
  }

  datatype Diagnosis = Diagnosis(
    appointmentId: Id,
    doctorId: Id,
    patientId: Id,
    symptoms: seq<string>,
    diagnosis: string,
    treatments: seq<string>,
    notes: string,
    medications: seq<Medication>,
    totalAmount: int,
    paymentStatus: BillStatus)

  /**
   * A new diagnosis document: refused when an id or the diagnosis text is missing or a
   * medication lacks a required field; otherwise its bill starts as pending.
   */
  function NewDiagnosis(appointmentId: Id, doctorId: Id, patientId: Id, symptoms: seq<string>,
                        diagnosis: string, treatments: seq<string>, notes: string,
                        medications: seq<Medication>, totalAmount: int)
    : (r: Option<Diagnosis>)
    ensures r.Some? <==> (appointmentId != "" && doctorId != "" && patientId != "" && diagnosis != ""
                          && forall k :: 0 <= k < |medications| ==> MedicationValid(medications[k]))
    ensures r.Some? ==> (r.value.paymentStatus == BillPending && r.value.medications == medications
                         && r.value.totalAmount == totalAmount && r.value.appointmentId == appointmentId)
  {
    if appointmentId != "" && doctorId != "" && patientId != "" && diagnosis != ""
       && forall k :: 0 <= k < |medications| ==> MedicationValid(medications[k])
    then Some(Diagnosis(appointmentId, doctorId, patientId, symptoms, diagnosis, treatments,
                        notes, medications, totalAmount, BillPending))
    else None
  }
}
