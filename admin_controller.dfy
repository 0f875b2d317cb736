/**
 * The admin handlers: adding a doctor, cancelling any appointment, the dashboard counts,
 * confirming a payment, and approving a doctor's working-schedule request.
 */
module AdminController {
  import opened Wrappers
  import opened Seqs
  import opened Calendar
  import opened Records
  import opened Backend
  import opened Consistency
  import Slots
  import Schedule
  import UserController
  import DoctorController

  // ---------------------------------------------------------------------------------
  // addDoctor

  predicate DoctorEmailUsed(db: Db, email: string) {
    exists id :: id in db.doctors && db.doctors[id].profile.email == email
  }

  ghost predicate DoctorEmailsUnique(db: Db) {
    forall i, j :: i in db.doctors && j in db.doctors && db.doctors[i].profile.email == db.doctors[j].profile.email ==> i == j
  }

  /**
   * `addDoctor`: refused when one of the eight text fields is missing, when the email is
   * not an address (`isEmail`), or when the password is shorter than eight characters;
   * `imageUrl` is the uploaded image's address and `address` the parsed address, None when
   * the upload or `JSON.parse` throws; the save is refused when a required field is empty
   * and when another doctor has the same email (the unique index).  The email is stored as
   * sent and the password as `hashedPassword`.
   */
  function AddDoctor(db: Db, name: string, email: string, password: string, speciality: string,
                     degree: string, experience: string, about: string, addressText: string,
                     isEmail: string -> bool, hashedPassword: string, imageUrl: Option<string>,
                     address: Option<string>, newId: Id): (r: Reply)
    requires newId !in db.doctors
    ensures r.outcome.Failed? ==> r.db == db
    ensures (name == "" || email == "" || password == "" || speciality == "" || degree == ""
             || experience == "" || about == "" || addressText == "") ==> r.outcome == Failed(MissingDetails)
    ensures r.outcome == Done <==>
      name != "" && email != "" && password != "" && speciality != "" && degree != ""
      && experience != "" && about != "" && addressText != "" && isEmail(email) && |password| >= 8
      && imageUrl.Some? && address.Some?
      && ProfileComplete(DoctorProfile(name, email, hashedPassword, imageUrl.value, speciality, degree,
                                       experience, about, address.value))
      && !DoctorEmailUsed(db, email)
    ensures r.outcome == Done ==>
      r.db == PutDoctor(db, newId, Doctor(DoctorProfile(name, email, hashedPassword, imageUrl.value, speciality,
                                                        degree, experience, about, address.value),
                                          true, map[], map[], map[]))
  {
    if name == "" || email == "" || password == "" || speciality == "" || degree == ""
       || experience == "" || about == "" || addressText == "" then Reply(Failed(MissingDetails), db)
    else if !isEmail(email) then Reply(Failed(InvalidEmail), db)
    else if |password| < 8 then Reply(Failed(WeakPassword), db)
    else if imageUrl.None? || address.None? then Reply(Failed(ServerError), db)
    else
      var profile := DoctorProfile(name, email, hashedPassword, imageUrl.value, speciality, degree,
                                   experience, about, address.value);
      match NewDoctor(profile)
      case None => Reply(Failed(ValidationFailed), db)
      case Some(d) =>
        if DoctorEmailUsed(db, email) then Reply(Failed(EmailTaken), db)
        else Reply(Done, PutDoctor(db, newId, d))
  }

  /**
   * A new doctor starts available with nothing booked, no schedule and no request; the
   * bookings stay in agreement and doctors' emails stay unique.
   */
  lemma AddDoctorMeaning(db: Db, name: string, email: string, password: string, speciality: string,
                         degree: string, experience: string, about: string, addressText: string,
                         isEmail: string -> bool, hashedPassword: string, imageUrl: Option<string>,
                         address: Option<string>, newId: Id)
    requires newId !in db.doctors && Consistent(db) && DoctorEmailsUnique(db)
    ensures var r := AddDoctor(db, name, email, password, speciality, degree, experience, about, addressText,
                               isEmail, hashedPassword, imageUrl, address, newId);
      Consistent(r.db) && DoctorEmailsUnique(r.db)
      && (r.outcome == Done ==>
            r.db.doctors[newId].available && |r.db.doctors[newId].slotsBooked| == 0
            && |r.db.doctors[newId].workingSchedule| == 0 && |r.db.doctors[newId].workingScheduleRequest| == 0)
  {
    var r := AddDoctor(db, name, email, password, speciality, degree, experience, about, addressText,
                       isEmail, hashedPassword, imageUrl, address, newId);
    if r.outcome == Done {
      AddDoctorConsistent(db, newId, r.db.doctors[newId]);
    }
  }

  // ---------------------------------------------------------------------------------
  // appointmentCancel

  /**
   * The admin's `appointmentCancel` as written: after the lookup the appointment is marked
   * cancelled whatever its state; when the doctor or its list for the date is then
   * missing the handler throws with that write made; otherwise the time is filtered out
   * of the list and the date key kept.
   */
  function AdminCancel(db: Db, appointmentId: Id): (r: Reply)
    ensures appointmentId !in db.appointments ==> r == Reply(Failed(AppointmentNotFound), db)
    ensures appointmentId in db.appointments ==>
      var a := db.appointments[appointmentId];
      r.db.appointments == db.appointments[appointmentId := a.(cancelled := true)]
      && r.db.order == db.order && r.db.users == db.users && r.db.diagnoses == db.diagnoses
      && (r.outcome == Done <==> a.docId in db.doctors && a.slotDate in db.doctors[a.docId].slotsBooked)
      && (r.outcome != Done ==> r.outcome == Failed(ServerError) && r.db.doctors == db.doctors)
      && (r.outcome == Done ==>
            r.db.doctors == db.doctors[a.docId := db.doctors[a.docId].(slotsBooked :=
              Slots.ReleaseKeepKey(db.doctors[a.docId].slotsBooked, a.slotDate, a.slotTime))])
  {
    if appointmentId !in db.appointments then Reply(Failed(AppointmentNotFound), db)
    else
      var a := db.appointments[appointmentId];
      var marked := PutAppointment(db, appointmentId, a.(cancelled := true));
      if a.docId !in db.doctors || a.slotDate !in db.doctors[a.docId].slotsBooked then
        Reply(Failed(ServerError), marked)
      else
        var doc := db.doctors[a.docId];
        Reply(Done, PutDoctor(marked, a.docId,
                              doc.(slotsBooked := Slots.ReleaseKeepKey(doc.slotsBooked, a.slotDate, a.slotTime))))
  }

  /** The admin cancellation as evidently intended: an already cancelled appointment is refused. */
  function AdminCancelGuarded(db: Db, appointmentId: Id): (r: Reply)
    ensures appointmentId in db.appointments && db.appointments[appointmentId].cancelled ==>
      r == Reply(Failed(AlreadyCancelled), db)
    ensures !(appointmentId in db.appointments && db.appointments[appointmentId].cancelled) ==>
      r == AdminCancel(db, appointmentId)
  {
    if appointmentId in db.appointments && db.appointments[appointmentId].cancelled then
      Reply(Failed(AlreadyCancelled), db)
    else AdminCancel(db, appointmentId)
  }

  /** The guarded admin cancellation keeps the agreement and never throws half-way on a consistent clinic. */
  lemma AdminCancelGuardedConsistent(db: Db, appointmentId: Id)
    requires Consistent(db)
    ensures Consistent(AdminCancelGuarded(db, appointmentId).db)
    ensures AdminCancelGuarded(db, appointmentId).outcome != Failed(ServerError)
  {
    if appointmentId in db.appointments && !db.appointments[appointmentId].cancelled {
      var a := db.appointments[appointmentId];
      var doc := db.doctors[a.docId];
      ReleasesRelease(doc.slotsBooked, a.slotDate, a.slotTime);
      CancelLiveConsistent(db, appointmentId,
                           doc.(slotsBooked := Slots.ReleaseKeepKey(doc.slotsBooked, a.slotDate, a.slotTime)));
    }
  }

  /** Cancelling again a cancelled appointment whose slot another patient holds frees that slot. */
  lemma AdminRecancelBreaks(db: Db, i: Id, j: Id)
    requires Consistent(db) && i in db.appointments && j in db.appointments
    requires db.appointments[i].cancelled
    requires Holds(db.appointments[j], db.appointments[i].docId, db.appointments[i].slotDate,
                   db.appointments[i].slotTime)
    ensures AdminCancel(db, i).outcome == Done
    ensures !Consistent(AdminCancel(db, i).db)
  {
    var a := db.appointments[i];
    var r := AdminCancel(db, i);
    assert i != j;
    assert r.db.appointments[j] == db.appointments[j];
    WithoutMembers(db.doctors[a.docId].slotsBooked[a.slotDate], a.slotTime);
    ReleaseHeldBreaks(r.db, j);
  }

  // ---------------------------------------------------------------------------------
  // adminDashboard

  datatype DashData = DashData(doctors: nat, appointments: nat, patients: nat, latestAppointments: seq<Appointment>)

  function Lookup(appts: map<Id, Appointment>, ids: seq<Id>): (r: seq<Appointment>)
    requires forall k :: 0 <= k < |ids| ==> ids[k] in appts
    ensures |r| == |ids| && forall k :: 0 <= k < |ids| ==> r[k] == appts[ids[k]]
  {
    if ids == [] then [] else [appts[ids[0]]] + Lookup(appts, ids[1..])
  }

  /**
   * `adminDashboard`: the three collection sizes and `appointments.reverse().slice(0, 5)`,
   * the five most recently stored appointments, newest first.
   */
  function Dashboard(db: Db): (r: DashData)
    requires OrderValid(db)
    ensures r.doctors == |db.doctors| && r.patients == |db.users| && r.appointments == |db.order|
    ensures |r.latestAppointments| == (if |db.order| < 5 then |db.order| else 5)
    ensures forall k :: 0 <= k < |r.latestAppointments| ==>
      r.latestAppointments[k] == db.appointments[db.order[|db.order| - 1 - k]]
  {
    var newest := Reverse(db.order);
    var n := if |newest| < 5 then |newest| else 5;
    forall k | 0 <= k < |newest| ensures newest[k] in db.appointments {
      ReverseAt(db.order, k);
    }
    forall k | 0 <= k < n ensures newest[k] == db.order[|db.order| - 1 - k] {
      ReverseAt(db.order, k);
    }
    DashData(|db.doctors|, |db.order|, |db.users|, Lookup(db.appointments, newest[..n]))
  }

  /** A duplicate-free list has as many elements as the set of its elements. */
  lemma {:induction false} DistinctCount(s: seq<Id>)
    requires NoDuplicates(s)
    ensures |set x | x in s| == |s|
  {
    if s != [] {
      var rest := s[1..];
      assert NoDuplicates(rest);
      DistinctCount(rest);
      assert (set x | x in s) == {s[0]} + (set x | x in rest);
      assert s[0] !in rest;
    }
  }

  /** The dashboard's appointment count is the number of stored appointments. */
  lemma DashboardCount(db: Db)
    requires OrderValid(db)
    ensures Dashboard(db).appointments == |db.appointments|
  {
    DistinctCount(db.order);
    assert (set x | x in db.order) == db.appointments.Keys;
  }

  // ---------------------------------------------------------------------------------
  // confirmPayment

  /** `confirmPayment`: refused without an id or for an unknown appointment; otherwise the payment is confirmed. */
  function ConfirmPayment(db: Db, appointmentId: Id): (r: Reply)
    ensures r.outcome.Failed? ==> r.db == db
    ensures r.outcome == Done <==> appointmentId != "" && appointmentId in db.appointments
    ensures r.outcome == Done ==>
      r.db == PutAppointment(db, appointmentId, db.appointments[appointmentId].(paymentStatus := PaymentConfirmed))
  {
    if appointmentId == "" then Reply(Failed(MissingId), db)
    else if appointmentId !in db.appointments then Reply(Failed(AppointmentNotFound), db)
    else Reply(Done, PutAppointment(db, appointmentId, db.appointments[appointmentId].(paymentStatus := PaymentConfirmed)))
  }

  /**
   * Confirming keeps the bookings, confirming again changes nothing, and the patient's
   * payment request on a confirmed appointment is then refused.
   */
  lemma ConfirmPaymentMeaning(db: Db, appointmentId: Id, userId: Id)
    requires Consistent(db)
    ensures Consistent(ConfirmPayment(db, appointmentId).db)
    ensures ConfirmPayment(ConfirmPayment(db, appointmentId).db, appointmentId).db == ConfirmPayment(db, appointmentId).db
    ensures ConfirmPayment(db, appointmentId).outcome == Done
            && db.appointments[appointmentId].userId == userId ==>
      UserController.RequestPay(ConfirmPayment(db, appointmentId).db, userId, appointmentId).outcome
        == Failed(AlreadyConfirmed)
  {
    var r := ConfirmPayment(db, appointmentId);
    if r.outcome == Done {
      assert Booking(r.db.appointments[appointmentId]) == Booking(db.appointments[appointmentId]);
    }
    SameBookingsConsistent(db, r.db);
  }

  // ---------------------------------------------------------------------------------
  // approveWorkingSchedule

  /**
   * `approveWorkingSchedule`: refused for an unknown doctor or an empty request; otherwise
   * the request becomes the working schedule and the request is emptied.
   */
  function Approve(db: Db, doctorId: Id): (r: Reply)
    ensures r.outcome.Failed? ==> r.db == db
    ensures r.outcome == Done <==> doctorId in db.doctors && |db.doctors[doctorId].workingScheduleRequest| > 0
    ensures r.outcome == Done ==>
      r.db == PutDoctor(db, doctorId, db.doctors[doctorId].(workingSchedule := db.doctors[doctorId].workingScheduleRequest,
                                                            workingScheduleRequest := map[]))
  {
    if doctorId !in db.doctors then Reply(Failed(DoctorNotFound), db)
    else
      var doc := db.doctors[doctorId];
      if |doc.workingScheduleRequest| == 0 then Reply(Failed(NoRequest), db)
      else Reply(Done, PutDoctor(db, doctorId, doc.(workingSchedule := doc.workingScheduleRequest,
                                                    workingScheduleRequest := map[])))
  }

  /**
   * An accepted non-empty request, once approved, is the doctor's working schedule; a
   * second approval is refused; the bookings are untouched throughout.
   */
  lemma RequestThenApprove(db: Db, rule: Schedule.WindowRule, docId: Id, request: SlotMap, keys: seq<string>,
                           now: Instant, parse: string -> Option<Instant>)
    requires ValidInstant(now) && Schedule.EntryOrder(request, keys) && |request| > 0
    requires DoctorController.RequestSchedule(db, rule, docId, Some(request), keys, now, parse).outcome == Done
    requires Consistent(db)
    ensures var db1 := DoctorController.RequestSchedule(db, rule, docId, Some(request), keys, now, parse).db;
      Approve(db1, docId).outcome == Done
      && Approve(db1, docId).db.doctors[docId].workingSchedule == request
      && Schedule.RequestAccepted(rule, Approve(db1, docId).db.doctors[docId].workingSchedule, now, parse)
      && Approve(Approve(db1, docId).db, docId) == Reply(Failed(NoRequest), Approve(db1, docId).db)
      && Consistent(Approve(db1, docId).db)
  {
    var db1 := DoctorController.RequestSchedule(db, rule, docId, Some(request), keys, now, parse).db;
    SameBookingsConsistent(db, Approve(db1, docId).db);
  }
}
