/**
 * The backend as a whole: every state-changing route as one request value, and the
 * theorem that the evidently intended handlers keep the clinic's stored collections in
 * agreement over any sequence of requests.  An insert with an id that is already taken
 * is refused, as the database's unique `_id` index refuses it.
 */
module Requests {
  import opened Wrappers
  import Text
  import opened Seqs
  import opened Calendar
  import opened Records
  import opened Backend
  import opened Consistency
  import Slots
  import Schedule
  import UserController
  import DoctorController
  import AdminController

  datatype Request =
    | RegisterUser(name: string, email: string, password: string, isEmail: string -> bool, newId: Id)
    | BookAppointment(userId: Id, docId: Id, slotDate: string, slotTime: string, now: int, newId: Id)
    | CancelAppointment(userId: Id, appointmentId: Id)
    | DeleteAppointment(userId: Id, appointmentId: Id)
    | RequestPayment(userId: Id, appointmentId: Id)
    | ChangeAvailability(docId: Id)
    | DoctorCancelAppointment(docId: Id, appointmentId: Id)
    | RequestWorkingSchedule(docId: Id, request: Option<SlotMap>, keys: seq<string>, instant: Instant,
                             parse: string -> Option<Instant>)
    | CreateDiagnosis(appointmentId: Id, symptoms: Option<seq<string>>, diagnosis: string,
                      treatments: Option<seq<string>>, medications: Option<seq<Medication>>, notes: string, newId: Id)
    | UpdateDiagnosis(diagnosisId: Id, symptoms: Option<seq<string>>, diagnosis: string,
                      treatments: Option<seq<string>>, medications: Option<seq<Medication>>, notes: string)
    | DeleteDiagnosis(diagnosisId: Id)
    | UpdatePaymentStatus(docId: Id, diagnosisId: Id, paymentStatus: string)
    | AddDoctor(name: string, email: string, password: string, speciality: string, degree: string,
                experience: string, about: string, addressText: string, isEmail: string -> bool,
                hashedPassword: string, imageUrl: Option<string>, address: Option<string>, newId: Id)
    | AppointmentCancel(appointmentId: Id)
    | ConfirmPayment(appointmentId: Id)
    | ApproveWorkingSchedule(doctorId: Id)

  /** A clinic whose stored collections agree. */
  ghost predicate Good(db: Db) {
    Consistent(db) && OrderValid(db) && DiagnosesLinked(db)
  }

  const Duplicate := Failed(ServerError)

  /**
   * One request handled by the evidently intended handlers: the guarded patient and admin
   * cancellations, the guarded deletion and the schedule window on whole days, the others
   * as written.  A schedule request whose key list is not its entries' order cannot arrive
   * and is refused as invalid.
   */
  ghost function Dispatch(db: Db, req: Request): Reply {
    match req
    case RegisterUser(name, email, password, isEmail, newId) =>
      if newId in db.users then Reply(Duplicate, db)
      else UserController.Register(db, name, email, password, isEmail, newId)
    case BookAppointment(userId, docId, slotDate, slotTime, now, newId) =>
      if newId in db.appointments then Reply(Duplicate, db)
      else UserController.Book(db, userId, docId, slotDate, slotTime, now, newId)
    case CancelAppointment(userId, appointmentId) => UserController.CancelGuarded(db, userId, appointmentId)
    case DeleteAppointment(userId, appointmentId) => UserController.DeleteGuarded(db, userId, appointmentId)
    case RequestPayment(userId, appointmentId) => UserController.RequestPay(db, userId, appointmentId)
    case ChangeAvailability(docId) => DoctorController.ChangeAvailability(db, docId)
    case DoctorCancelAppointment(docId, appointmentId) => DoctorController.DoctorCancelSaved(db, docId, appointmentId)
    case RequestWorkingSchedule(docId, request, keys, instant, parse) =>
      if ValidInstant(instant) && (request.Some? ==> Schedule.EntryOrder(request.value, keys)) then
        DoctorController.RequestSchedule(db, Schedule.WholeDays, docId, request, keys, instant, parse)
      else Reply(Failed(InvalidRequest), db)
    case CreateDiagnosis(appointmentId, symptoms, diagnosis, treatments, medications, notes, newId) =>
      if newId in db.diagnoses then Reply(Duplicate, db)
      else DoctorController.CreateDiagnosis(db, appointmentId, symptoms, diagnosis, treatments, medications, notes, newId)
    case UpdateDiagnosis(diagnosisId, symptoms, diagnosis, treatments, medications, notes) =>
      DoctorController.UpdateDiagnosis(db, diagnosisId, symptoms, diagnosis, treatments, medications, notes)
    case DeleteDiagnosis(diagnosisId) => DoctorController.DeleteDiagnosis(db, diagnosisId)
    case UpdatePaymentStatus(docId, diagnosisId, paymentStatus) =>
      DoctorController.UpdateBillStatus(db, docId, diagnosisId, paymentStatus)
    case AddDoctor(name, email, password, speciality, degree, experience, about, addressText, isEmail,
                   hashedPassword, imageUrl, address, newId) =>
      if newId in db.doctors then Reply(Duplicate, db)
      else AdminController.AddDoctor(db, name, email, password, speciality, degree, experience, about,
                                     addressText, isEmail, hashedPassword, imageUrl, address, newId)
    case AppointmentCancel(appointmentId) => AdminController.AdminCancelGuarded(db, appointmentId)
    case ConfirmPayment(appointmentId) => AdminController.ConfirmPayment(db, appointmentId)
    case ApproveWorkingSchedule(doctorId) => AdminController.Approve(db, doctorId)
  }

  /** The clinic after a sequence of requests, each handled in turn. */
  ghost function Run(db: Db, reqs: seq<Request>): Db
    decreases |reqs|
  {
    if reqs == [] then db else Run(Dispatch(db, reqs[0]).db, reqs[1..])
  }

  /** Every request keeps the stored collections in agreement. */
  lemma DispatchKeepsGood(db: Db, req: Request)
    requires Good(db)
    ensures Good(Dispatch(db, req).db)
  {
    match req
    case RegisterUser(name, email, password, isEmail, newId) =>
      if newId !in db.users {
        RegisterKeepsGood(db, name, email, password, isEmail, newId);
      }
    case BookAppointment(userId, docId, slotDate, slotTime, now, newId) =>
      if newId !in db.appointments {
        BookKeepsGood(db, userId, docId, slotDate, slotTime, now, newId);
      }
    case CancelAppointment(userId, appointmentId) => CancelKeepsGood(db, userId, appointmentId);
    case DeleteAppointment(userId, appointmentId) => DeleteKeepsGood(db, userId, appointmentId);
    case RequestPayment(userId, appointmentId) => RequestPayKeepsGood(db, userId, appointmentId);
    case ChangeAvailability(docId) => ChangeAvailabilityKeepsGood(db, docId);
    case DoctorCancelAppointment(docId, appointmentId) => DoctorCancelKeepsGood(db, docId, appointmentId);
    case RequestWorkingSchedule(docId, request, keys, instant, parse) =>
      if ValidInstant(instant) && (request.Some? ==> Schedule.EntryOrder(request.value, keys)) {
        RequestScheduleKeepsGood(db, Schedule.WholeDays, docId, request, keys, instant, parse);
      }
    case CreateDiagnosis(appointmentId, symptoms, diagnosis, treatments, medications, notes, newId) =>
      if newId !in db.diagnoses {
        DoctorController.CreateDiagnosisConsistent(db, appointmentId, symptoms, diagnosis, treatments,
                                                   medications, notes, newId);
      }
    case UpdateDiagnosis(diagnosisId, symptoms, diagnosis, treatments, medications, notes) =>
      DoctorController.UpdateDiagnosisConsistent(db, diagnosisId, symptoms, diagnosis, treatments, medications, notes);
    case DeleteDiagnosis(diagnosisId) =>
      DoctorController.DeleteDiagnosisConsistent(db, diagnosisId);
    case UpdatePaymentStatus(docId, diagnosisId, paymentStatus) =>
      DoctorController.UpdateBillStatusConsistent(db, docId, diagnosisId, paymentStatus);
    case AddDoctor(name, email, password, speciality, degree, experience, about, addressText, isEmail,
                   hashedPassword, imageUrl, address, newId) =>
      if newId !in db.doctors {
        AddDoctorKeepsGood(db, name, email, password, speciality, degree, experience, about, addressText,
                           isEmail, hashedPassword, imageUrl, address, newId);
      }
    case AppointmentCancel(appointmentId) => AdminCancelKeepsGood(db, appointmentId);
    case ConfirmPayment(appointmentId) => ConfirmKeepsGood(db, appointmentId);
    case ApproveWorkingSchedule(doctorId) => ApproveKeepsGood(db, doctorId);
  }

  lemma RegisterKeepsGood(db: Db, name: string, email: string, password: string, isEmail: string -> bool, newId: Id)
    requires Good(db) && newId !in db.users
    ensures Good(UserController.Register(db, name, email, password, isEmail, newId).db)
  {
    var r := UserController.Register(db, name, email, password, isEmail, newId).db;
    UserController.RegisterTouchesUsersOnly(db, name, email, password, isEmail, newId);
    UsersOnlyKeepsGood(db, r.users);
  }

  lemma UsersOnlyKeepsGood(db: Db, users: map<Id, UserProfile>)
    requires Good(db)
    ensures Good(db.(users := users))
  {
    SameBookingsConsistent(db, db.(users := users));
  }

  lemma BookKeepsGood(db: Db, userId: Id, docId: Id, slotDate: string, slotTime: string, now: int, newId: Id)
    requires Good(db) && newId !in db.appointments
    ensures Good(UserController.Book(db, userId, docId, slotDate, slotTime, now, newId).db)
  {
    UserController.BookConsistent(db, userId, docId, slotDate, slotTime, now, newId);
    BookLinks(db, userId, docId, slotDate, slotTime, now, newId);
  }

  lemma CancelKeepsGood(db: Db, userId: Id, appointmentId: Id)
    requires Good(db)
    ensures Good(UserController.CancelGuarded(db, userId, appointmentId).db)
  {
    UserController.CancelGuardedConsistent(db, userId, appointmentId);
    if appointmentId in db.appointments {
      KeepLinks(db, UserController.CancelGuarded(db, userId, appointmentId).db, appointmentId);
    }
  }

  lemma DeleteKeepsGood(db: Db, userId: Id, appointmentId: Id)
    requires Good(db)
    ensures Good(UserController.DeleteGuarded(db, userId, appointmentId).db)
  {
    UserController.DeleteGuardedConsistent(db, userId, appointmentId);
    var r := UserController.DeleteGuarded(db, userId, appointmentId).db;
    forall id | id in r.appointments && r.appointments[id].diagnosisId.Some?
      ensures r.appointments[id].diagnosisId.value in r.diagnoses
              && r.diagnoses[r.appointments[id].diagnosisId.value].appointmentId == id
    {
      assert r.appointments[id] == db.appointments[id];
    }
  }

  lemma RequestPayKeepsGood(db: Db, userId: Id, appointmentId: Id)
    requires Good(db)
    ensures Good(UserController.RequestPay(db, userId, appointmentId).db)
  {
    UserController.RequestPayConsistent(db, userId, appointmentId);
    if appointmentId in db.appointments {
      KeepLinks(db, UserController.RequestPay(db, userId, appointmentId).db, appointmentId);
    }
  }

  lemma ChangeAvailabilityKeepsGood(db: Db, docId: Id)
    requires Good(db)
    ensures Good(DoctorController.ChangeAvailability(db, docId).db)
  {
    if docId in db.doctors {
      DoctorController.ChangeAvailabilityTwice(db, docId);
    }
  }

  lemma DoctorCancelKeepsGood(db: Db, docId: Id, appointmentId: Id)
    requires Good(db)
    ensures Good(DoctorController.DoctorCancelSaved(db, docId, appointmentId).db)
  {
    DoctorController.DoctorCancelSavedConsistent(db, docId, appointmentId);
    if appointmentId in db.appointments {
      KeepLinks(db, DoctorController.DoctorCancelSaved(db, docId, appointmentId).db, appointmentId);
    }
  }

  /**
   * A patient books a free slot and the doctor cancels it.  As written the stored slot
   * stays booked, the clinic is out of agreement and a second patient's booking of that
   * slot is refused; with the release saved the clinic stays in agreement and the second
   * booking is accepted.
   */
  lemma DoctorCancelScenario(db: Db, u1: Id, u2: Id, docId: Id, slotDate: string, slotTime: string,
                             now1: int, now2: int, id1: Id, id2: Id)
    requires Consistent(db) && OrderValid(db)
    requires id1 != "" && id1 != id2 && id1 !in db.appointments && id2 !in db.appointments
    requires u1 != "" && u2 != "" && u1 in db.users && u2 in db.users
    requires docId != "" && slotDate != "" && slotTime != ""
    requires docId in db.doctors && db.doctors[docId].available
    requires !Slots.Booked(db.doctors[docId].slotsBooked, slotDate, slotTime)
    ensures var db1 := UserController.Book(db, u1, docId, slotDate, slotTime, now1, id1).db;
      var c := DoctorController.DoctorCancel(db1, docId, id1);
      var s := DoctorController.DoctorCancelSaved(db1, docId, id1);
      c.outcome == Done && !Consistent(c.db)
      && UserController.Book(c.db, u2, docId, slotDate, slotTime, now2, id2).outcome == Failed(SlotUnavailable)
      && s.outcome == Done && Consistent(s.db)
      && UserController.Book(s.db, u2, docId, slotDate, slotTime, now2, id2).outcome == Done
  {
    var b := UserController.Book(db, u1, docId, slotDate, slotTime, now1, id1);
    var db1 := b.db;
    assert b.outcome == Done;
    assert Holds(db1.appointments[id1], docId, slotDate, slotTime);
    UserController.BookConsistent(db, u1, docId, slotDate, slotTime, now1, id1);
    DoctorController.DoctorCancelLeavesSlotBooked(db1, docId, id1);
    DoctorController.DoctorCancelSavedConsistent(db1, docId, id1);
    var s := DoctorController.DoctorCancelSaved(db1, docId, id1).db;
    Slots.ReleaseDropEmptyBooked(db1.doctors[docId].slotsBooked, slotDate, slotTime);
    assert !Slots.Booked(s.doctors[docId].slotsBooked, slotDate, slotTime);
  }

  lemma RequestScheduleKeepsGood(db: Db, rule: Schedule.WindowRule, docId: Id, request: Option<SlotMap>, keys: seq<string>,
                                 now: Instant, parse: string -> Option<Instant>)
    requires Good(db) && ValidInstant(now)
    requires request.Some? ==> Schedule.EntryOrder(request.value, keys)
    ensures Good(DoctorController.RequestSchedule(db, rule, docId, request, keys, now, parse).db)
  {
    DoctorController.RequestScheduleConsistent(db, rule, docId, request, keys, now, parse);
  }

  lemma AddDoctorKeepsGood(db: Db, name: string, email: string, password: string, speciality: string,
                           degree: string, experience: string, about: string, addressText: string,
                           isEmail: string -> bool, hashedPassword: string, imageUrl: Option<string>,
                           address: Option<string>, newId: Id)
    requires Good(db) && newId !in db.doctors
    ensures Good(AdminController.AddDoctor(db, name, email, password, speciality, degree, experience, about,
                                           addressText, isEmail, hashedPassword, imageUrl, address, newId).db)
  {
    var r := AdminController.AddDoctor(db, name, email, password, speciality, degree, experience, about,
                                       addressText, isEmail, hashedPassword, imageUrl, address, newId);
    if r.outcome == Done {
      AddDoctorConsistent(db, newId, r.db.doctors[newId]);
    }
  }

  lemma AdminCancelKeepsGood(db: Db, appointmentId: Id)
    requires Good(db)
    ensures Good(AdminController.AdminCancelGuarded(db, appointmentId).db)
  {
    AdminController.AdminCancelGuardedConsistent(db, appointmentId);
    if appointmentId in db.appointments {
      KeepLinks(db, AdminController.AdminCancelGuarded(db, appointmentId).db, appointmentId);
    }
  }

  lemma ConfirmKeepsGood(db: Db, appointmentId: Id)
    requires Good(db)
    ensures Good(AdminController.ConfirmPayment(db, appointmentId).db)
  {
    AdminController.ConfirmPaymentMeaning(db, appointmentId, "");
    if appointmentId in db.appointments {
      KeepLinks(db, AdminController.ConfirmPayment(db, appointmentId).db, appointmentId);
    }
  }

  lemma ApproveKeepsGood(db: Db, doctorId: Id)
    requires Good(db)
    ensures Good(AdminController.Approve(db, doctorId).db)
  {
    SameBookingsConsistent(db, AdminController.Approve(db, doctorId).db);
  }

  /** Changing one appointment without touching its link, the diagnoses or `order` keeps the links and `order`. */
  lemma KeepLinks(db: Db, r: Db, id: Id)
    requires OrderValid(db) && DiagnosesLinked(db) && id in db.appointments
    requires r.diagnoses == db.diagnoses && r.order == db.order && r.appointments.Keys == db.appointments.Keys
    requires forall k :: k in db.appointments && k != id ==> r.appointments[k] == db.appointments[k]
    requires r.appointments[id].diagnosisId == db.appointments[id].diagnosisId
    ensures OrderValid(r) && DiagnosesLinked(r)
  {
  }

  /** A new appointment has no diagnosis, so booking keeps the links. */
  lemma BookLinks(db: Db, userId: Id, docId: Id, slotDate: string, slotTime: string, now: int, newId: Id)
    requires newId !in db.appointments && DiagnosesLinked(db)
    ensures DiagnosesLinked(UserController.Book(db, userId, docId, slotDate, slotTime, now, newId).db)
  {
    var r := UserController.Book(db, userId, docId, slotDate, slotTime, now, newId).db;
    if r != db {
      forall id | id in r.appointments && r.appointments[id].diagnosisId.Some?
        ensures r.appointments[id].diagnosisId.value in r.diagnoses
                && r.diagnoses[r.appointments[id].diagnosisId.value].appointmentId == id
      {
        assert id != newId;
        assert r.appointments[id] == db.appointments[id];
      }
    }
  }

  /**
   * The headline property: starting from an empty clinic, or any clinic whose collections
   * agree, every sequence of requests leaves a live appointment's slot booked, a booked
   * slot held by exactly one live appointment, and every diagnosis link resolvable.
   */
  lemma {:induction false} RunKeepsGood(db: Db, reqs: seq<Request>)
    requires Good(db)
    ensures Good(Run(db, reqs))
    decreases |reqs|
  {
    if reqs != [] {
      DispatchKeepsGood(db, reqs[0]);
      RunKeepsGood(Dispatch(db, reqs[0]).db, reqs[1..]);
    }
  }

  /** The empty clinic the server starts from agrees, so every reachable clinic does. */
  lemma FromEmpty(reqs: seq<Request>)
    ensures Good(Run(Db(map[], map[], map[], [], map[]), reqs))
  {
    EmptyConsistent();
    RunKeepsGood(Db(map[], map[], map[], [], map[]), reqs);
  }
}
