/**
 * The patient-facing handlers: registration, booking, cancelling, deleting and the
 * payment request.  `userId` is the id the authentication middleware attached to the
 * request; fresh document ids and the clock are parameters.
 */
module UserController {
  import opened Wrappers
  import opened Seqs
  import opened Text
  import opened Records
  import opened Backend
  import opened Consistency
  import Slots
  import Payments

  // ---------------------------------------------------------------------------------
  // registerUser

  /** The name pattern: ASCII letters, the Latin range À to ỹ, white space, `.`, `'` and `-`. */
  predicate NameChar(c: char) {
    ('a' <= c <= 'z') || ('A' <= c <= 'Z') || ('\U{00C0}' <= c <= '\U{1EF9}')
    || IsJsSpace(c) || c == '.' || c == '\'' || c == '-'
  }

  predicate NameAllowed(name: string) {
    |name| > 0 && forall i :: 0 <= i < |name| ==> NameChar(name[i])
  }

  predicate SpecialChar(c: char) {
    c == '@' || c == '$' || c == '!' || c == '%' || c == '*' || c == '#' || c == '?' || c == '&'
  }

  /**
   * The strong-password pattern: at least eight characters, none a line terminator, with
   * a lower-case letter, an upper-case letter, a digit and one of `@$!%*#?&`.
   */
  predicate StrongPassword(p: string) {
    |p| >= 8
    && (forall i :: 0 <= i < |p| ==> !IsLineTerminator(p[i]))
    && (exists i :: 0 <= i < |p| && 'a' <= p[i] <= 'z')
    && (exists i :: 0 <= i < |p| && 'A' <= p[i] <= 'Z')
    && (exists i :: 0 <= i < |p| && '0' <= p[i] <= '9')
    && (exists i :: 0 <= i < |p| && SpecialChar(p[i]))
  }

  /** The tail from the last '.', which must be `.com` or `.vn`. */
  predicate DomainAllowed(email: string) {
    SuffixFromLast(email, '.') == ".com" || SuffixFromLast(email, '.') == ".vn"
  }

  predicate EmailRegistered(db: Db, email: string) {
    exists id :: id in db.users && db.users[id].email == email
  }

  /** `email?.trim().toLowerCase()` (the model folds only A to Z). */
  function NormaliseEmail(email: string): string {
    ToLower(Trim(email))
  }

  /**
   * The checks of `registerUser` on the trimmed name and normalised email, in the order
   * the handler makes them; None when the account may be created.
   */
  function RegistrationError(db: Db, name: string, email: string, password: string,
                             isEmail: string -> bool): (r: Option<Failure>)
    ensures r.None? <==>
      (name != "" && email != "" && password != "" && |name| <= 50 && |email| <= 100
       && NameAllowed(name) && isEmail(email) && DomainAllowed(email) && StrongPassword(password)
       && !EmailRegistered(db, email))
    ensures (name == "" || email == "" || password == "") <==> r == Some(MissingDetails)
    ensures r == Some(NameTooLong) <==> name != "" && email != "" && password != "" && |name| > 50
    ensures r == Some(EmailTaken) <==>
      (name != "" && email != "" && password != "" && |name| <= 50 && |email| <= 100
       && NameAllowed(name) && isEmail(email) && DomainAllowed(email) && StrongPassword(password)
       && EmailRegistered(db, email))
  {
    if name == "" || email == "" || password == "" then Some(MissingDetails)
    else if |name| > 50 then Some(NameTooLong)
    else if |email| > 100 then Some(EmailTooLong)
    else if !NameAllowed(name) then Some(NameInvalid)
    else if !isEmail(email) then Some(InvalidEmail)
    else if !DomainAllowed(email) then Some(EmailDomain)
    else if !StrongPassword(password) then Some(WeakPassword)
    else if EmailRegistered(db, email) then Some(EmailTaken)
    else None
  }

  /** `registerUser`: stores `{ name, email }` (the hash of the password is not modelled). */
  function Register(db: Db, name: string, email: string, password: string,
                    isEmail: string -> bool, newId: Id): (r: Reply)
    requires newId !in db.users
    ensures var e := RegistrationError(db, Trim(name), NormaliseEmail(email), password, isEmail);
      (e.Some? ==> r == Reply(Failed(e.value), db))
      && (e.None? ==> r == Reply(Done, db.(users := db.users[newId := UserProfile(Trim(name), NormaliseEmail(email))])))
  {
    var n := Trim(name);
    var e := NormaliseEmail(email);
    match RegistrationError(db, n, e, password, isEmail)
    case Some(f) => Reply(Failed(f), db)
    case None => Reply(Done, db.(users := db.users[newId := UserProfile(n, e)]))
  }

  /** Registration writes the users collection only. */
  lemma RegisterTouchesUsersOnly(db: Db, name: string, email: string, password: string,
                                 isEmail: string -> bool, newId: Id)
    requires newId !in db.users
    ensures Register(db, name, email, password, isEmail, newId).db
            == db.(users := Register(db, name, email, password, isEmail, newId).db.users)
  {
  }

  /** No two users share an email address. */
  ghost predicate EmailsUnique(db: Db) {
    forall i, j :: i in db.users && j in db.users && db.users[i].email == db.users[j].email ==> i == j
  }

  /**
   * A stored account has a trimmed name of at most 50 allowed characters, a lower-case
   * email of at most 100 characters ending in `.com` or `.vn`, and the addresses stay unique.
   */
  lemma RegisterMeaning(db: Db, name: string, email: string, password: string,
                        isEmail: string -> bool, newId: Id)
    requires newId !in db.users && EmailsUnique(db)
    requires Register(db, name, email, password, isEmail, newId).outcome == Done
    ensures var u := Register(db, name, email, password, isEmail, newId).db.users[newId];
      u.name == Trim(name) && 0 < |u.name| <= 50 && NameAllowed(u.name)
      && 0 < |u.email| <= 100 && DomainAllowed(u.email) && isEmail(u.email)
      && (forall i :: 0 <= i < |u.email| ==> !('A' <= u.email[i] <= 'Z'))
      && StrongPassword(password)
    ensures EmailsUnique(Register(db, name, email, password, isEmail, newId).db)
  {
    var e := NormaliseEmail(email);
    assert RegistrationError(db, Trim(name), e, password, isEmail).None?;
    NormalisedEmailLower(email);
    InsertFreshEmail(db, newId, UserProfile(Trim(name), e));
  }

  /** A normalised address has no upper-case A to Z. */
  lemma NormalisedEmailLower(email: string)
    ensures forall i :: 0 <= i < |NormaliseEmail(email)| ==> !('A' <= NormaliseEmail(email)[i] <= 'Z')
  {
    var e := NormaliseEmail(email);
    forall i | 0 <= i < |e| ensures !('A' <= e[i] <= 'Z') {
      assert e[i] == LowerAscii(Trim(email)[i]);
    }
  }

  /** Storing an account under an address nobody has keeps addresses unique. */
  lemma InsertFreshEmail(db: Db, newId: Id, u: UserProfile)
    requires EmailsUnique(db) && !EmailRegistered(db, u.email)
    ensures EmailsUnique(db.(users := db.users[newId := u]))
  {
    var users := db.users[newId := u];
    assert forall id :: id in db.users ==> db.users[id].email != u.email;
    forall i, j | i in users && j in users && users[i].email == users[j].email
      ensures i == j
    {
      if i != newId && j != newId {
        assert db.users[i].email == db.users[j].email;
      }
    }
  }

  /** Registering the same address a second time is refused, whatever else is sent. */
  lemma RegisterTwice(db: Db, name: string, email: string, password: string,
                      name2: string, password2: string, isEmail: string -> bool, id1: Id, id2: Id)
    requires id1 !in db.users && id2 != id1 && id2 !in db.users
    requires Register(db, name, email, password, isEmail, id1).outcome == Done
    ensures var r2 := Register(Register(db, name, email, password, isEmail, id1).db,
                               name2, email, password2, isEmail, id2);
      r2.outcome.Failed? && r2.db == Register(db, name, email, password, isEmail, id1).db
  {
    var db1 := Register(db, name, email, password, isEmail, id1).db;
    assert db1.users[id1].email == NormaliseEmail(email);
    assert EmailRegistered(db1, NormaliseEmail(email));
  }

  // ---------------------------------------------------------------------------------
  // bookAppointment

  /**
   * `bookAppointment`: refused without a time, for an unknown or unavailable doctor, for
   * a time already booked on that date, and when the new appointment fails validation;
   * otherwise the appointment is stored (with the doctor's profile minus the password)
   * and the time appended to the doctor's list.  A refusal writes nothing.
   */
  function Book(db: Db, userId: Id, docId: Id, slotDate: string, slotTime: string,
                now: int, newId: Id): (r: Reply)
    requires newId !in db.appointments
    ensures r.outcome.Failed? ==> r.db == db
    ensures slotTime == "" ==> r.outcome == Failed(NoTimeChosen)
    ensures slotTime != "" && (docId !in db.doctors || !db.doctors[docId].available) ==>
      r.outcome == Failed(DoctorUnavailable)
    ensures slotTime != "" && docId in db.doctors && db.doctors[docId].available
            && Slots.Booked(db.doctors[docId].slotsBooked, slotDate, slotTime) ==>
      r.outcome == Failed(SlotUnavailable)
    ensures r.outcome == Done <==>
      (slotTime != "" && docId in db.doctors && db.doctors[docId].available
       && !Slots.Booked(db.doctors[docId].slotsBooked, slotDate, slotTime)
       && userId != "" && docId != "" && slotDate != "" && userId in db.users)
    ensures r.outcome == Done ==>
      var doc := db.doctors[docId];
      r.db.appointments.Keys == db.appointments.Keys + {newId}
      && Holds(r.db.appointments[newId], docId, slotDate, slotTime) && r.db.appointments[newId].userId == userId
      && r.db.appointments[newId].paymentStatus == PaymentNone && r.db.appointments[newId].diagnosisId == None
      && r.db.appointments[newId].docData == doc.profile.(password := "")
      && (forall id :: id in db.appointments ==> r.db.appointments[id] == db.appointments[id])
      && r.db.doctors == db.doctors[docId := doc.(slotsBooked := Slots.AddTime(doc.slotsBooked, slotDate, slotTime))]
      && r.db.order == db.order + [newId]
      && r.db.users == db.users && r.db.diagnoses == db.diagnoses
  {
    if slotTime == "" then Reply(Failed(NoTimeChosen), db)
    else if docId !in db.doctors || !db.doctors[docId].available then Reply(Failed(DoctorUnavailable), db)
    else
      var doc := db.doctors[docId];
      if Slots.Booked(doc.slotsBooked, slotDate, slotTime) then Reply(Failed(SlotUnavailable), db)
      else
        var userData := if userId in db.users then Some(db.users[userId]) else None;
        match NewAppointment(userId, docId, slotDate, slotTime, userData, doc.profile.(password := ""), now)
        case None => Reply(Failed(ValidationFailed), db)
        case Some(a) =>
          Reply(Done, PutDoctor(PutAppointment(db, newId, a), docId,
                                doc.(slotsBooked := Slots.AddTime(doc.slotsBooked, slotDate, slotTime)))
                        .(order := db.order + [newId]))
  }

  /** Booking keeps the appointments and the booked slots in agreement, and `order` valid. */
  lemma BookConsistent(db: Db, userId: Id, docId: Id, slotDate: string, slotTime: string,
                          now: int, newId: Id)
    requires newId !in db.appointments && Consistent(db) && OrderValid(db)
    ensures Consistent(Book(db, userId, docId, slotDate, slotTime, now, newId).db)
    ensures OrderValid(Book(db, userId, docId, slotDate, slotTime, now, newId).db)
  {
    var r := Book(db, userId, docId, slotDate, slotTime, now, newId);
    if r.outcome == Done {
      var doc := db.doctors[docId];
      var a := r.db.appointments[newId];
      var doctor := doc.(slotsBooked := Slots.AddTime(doc.slotsBooked, slotDate, slotTime));
      assert r.db == PutDoctor(PutAppointment(db, newId, a), docId, doctor).(order := db.order + [newId]);
      Consistency.BookConsistent(db, newId, a, doctor);
      assert newId !in db.order;
    }
  }

  /** Once a time is booked, booking it again is refused and changes nothing. */
  lemma BookTwiceRefused(db: Db, u1: Id, u2: Id, docId: Id, slotDate: string, slotTime: string,
                         now1: int, now2: int, id1: Id, id2: Id)
    requires id1 !in db.appointments && id2 != id1 && id2 !in db.appointments
    requires Book(db, u1, docId, slotDate, slotTime, now1, id1).outcome == Done
    ensures var db1 := Book(db, u1, docId, slotDate, slotTime, now1, id1).db;
      Book(db1, u2, docId, slotDate, slotTime, now2, id2) == Reply(Failed(SlotUnavailable), db1)
  {
    var db1 := Book(db, u1, docId, slotDate, slotTime, now1, id1).db;
    assert Slots.Booked(db1.doctors[docId].slotsBooked, slotDate, slotTime);
  }

  // ---------------------------------------------------------------------------------
  // cancelAppointment

  /**
   * `cancelAppointment` as written: after the lookup and the ownership check the
   * appointment is marked cancelled at once, whatever its state; when the doctor or its
   * list for the date is then missing the handler throws with that write already made;
   * otherwise the time is filtered out of the list, leaving the date key in place.
   */
  function Cancel(db: Db, userId: Id, appointmentId: Id): (r: Reply)
    ensures appointmentId !in db.appointments ==> r == Reply(Failed(AppointmentNotFound), db)
    ensures appointmentId in db.appointments && db.appointments[appointmentId].userId != userId ==>
      r == Reply(Failed(Unauthorized), db)
    ensures appointmentId in db.appointments && db.appointments[appointmentId].userId == userId ==>
      var a := db.appointments[appointmentId];
      r.db.appointments == db.appointments[appointmentId := a.(cancelled := true)]
      && r.db.order == db.order && r.db.users == db.users && r.db.diagnoses == db.diagnoses
      && (r.outcome == Done <==> a.docId in db.doctors && a.slotDate in db.doctors[a.docId].slotsBooked)
      && (r.outcome != Done ==> r.outcome == Failed(ServerError) && r.db.doctors == db.doctors)
      && (r.outcome == Done ==>
            r.db.doctors == db.doctors[a.docId := db.doctors[a.docId].(slotsBooked :=
              Slots.ReleaseKeepKey(db.doctors[a.docId].slotsBooked, a.slotDate, a.slotTime))])
  {
    if appointmentId !in db.appointments then Reply(Failed(AppointmentNotFound), db)
    else
      var a := db.appointments[appointmentId];
      if a.userId != userId then Reply(Failed(Unauthorized), db)
      else
        var marked := PutAppointment(db, appointmentId, a.(cancelled := true));
        if a.docId !in db.doctors || a.slotDate !in db.doctors[a.docId].slotsBooked then
          Reply(Failed(ServerError), marked)
        else
          var doc := db.doctors[a.docId];
          Reply(Done, PutDoctor(marked, a.docId,
                                doc.(slotsBooked := Slots.ReleaseKeepKey(doc.slotsBooked, a.slotDate, a.slotTime))))
  }

  /**
   * The cancellation as evidently intended: the same steps, but an appointment that is
   * already cancelled is refused before anything is written, as the doctor's handler does.
   */
  function CancelGuarded(db: Db, userId: Id, appointmentId: Id): (r: Reply)
    ensures appointmentId in db.appointments && db.appointments[appointmentId].userId == userId
            && db.appointments[appointmentId].cancelled ==>
      r == Reply(Failed(AlreadyCancelled), db)
    ensures !(appointmentId in db.appointments && db.appointments[appointmentId].userId == userId
              && db.appointments[appointmentId].cancelled) ==>
      r == Cancel(db, userId, appointmentId)
  {
    if appointmentId in db.appointments && db.appointments[appointmentId].userId == userId
       && db.appointments[appointmentId].cancelled
    then Reply(Failed(AlreadyCancelled), db)
    else Cancel(db, userId, appointmentId)
  }

  /** The guarded cancellation keeps the agreement, and never throws half-way on a consistent clinic. */
  lemma CancelGuardedConsistent(db: Db, userId: Id, appointmentId: Id)
    requires Consistent(db)
    ensures Consistent(CancelGuarded(db, userId, appointmentId).db)
    ensures CancelGuarded(db, userId, appointmentId).outcome != Failed(ServerError)
  {
    if appointmentId in db.appointments && db.appointments[appointmentId].userId == userId
       && !db.appointments[appointmentId].cancelled {
      var a := db.appointments[appointmentId];
      var doc := db.doctors[a.docId];
      ReleasesRelease(doc.slotsBooked, a.slotDate, a.slotTime);
      CancelLiveConsistent(db, appointmentId,
                           doc.(slotsBooked := Slots.ReleaseKeepKey(doc.slotsBooked, a.slotDate, a.slotTime)));
    }
  }

  /**
   * Cancelling again an appointment that is already cancelled, once another patient holds
   * the same slot, frees that patient's slot: the agreement is broken.
   */
  lemma RecancelBreaks(db: Db, userId: Id, i: Id, j: Id)
    requires Consistent(db) && i in db.appointments && j in db.appointments
    requires db.appointments[i].userId == userId && db.appointments[i].cancelled
    requires Holds(db.appointments[j], db.appointments[i].docId, db.appointments[i].slotDate,
                   db.appointments[i].slotTime)
    ensures Cancel(db, userId, i).outcome == Done
    ensures !Consistent(Cancel(db, userId, i).db)
  {
    var a := db.appointments[i];
    var r := Cancel(db, userId, i);
    assert i != j;
    assert r.db.appointments[j] == db.appointments[j];
    WithoutMembers(db.doctors[a.docId].slotsBooked[a.slotDate], a.slotTime);
    ReleaseHeldBreaks(r.db, j);
  }

  // ---------------------------------------------------------------------------------
  // deleteAppointment

  /**
   * `deleteAppointment` as written: after the lookup, the ownership check and the doctor
   * lookup, the time is filtered out of the doctor's list (the date key dropped once
   * empty) whether or not the appointment was cancelled, and the appointment is removed.
   */
  function Delete(db: Db, userId: Id, appointmentId: Id): (r: Reply)
    ensures appointmentId !in db.appointments ==> r == Reply(Failed(AppointmentNotFound), db)
    ensures appointmentId in db.appointments && db.appointments[appointmentId].userId != userId ==>
      r == Reply(Failed(Unauthorized), db)
    ensures appointmentId in db.appointments && db.appointments[appointmentId].userId == userId
            && db.appointments[appointmentId].docId !in db.doctors ==>
      r == Reply(Failed(DoctorNotFound), db)
    ensures r.outcome == Done ==>
      appointmentId in db.appointments
      && var a := db.appointments[appointmentId];
      a.docId in db.doctors
      && r.db.appointments == db.appointments - {appointmentId}
      && r.db.order == Without(db.order, appointmentId)
      && r.db.doctors == db.doctors[a.docId := db.doctors[a.docId].(slotsBooked :=
           Slots.ReleaseDropEmpty(db.doctors[a.docId].slotsBooked, a.slotDate, a.slotTime))]
      && r.db.users == db.users && r.db.diagnoses == db.diagnoses
    ensures r.outcome.Failed? ==> r.db == db
  {
    if appointmentId !in db.appointments then Reply(Failed(AppointmentNotFound), db)
    else
      var a := db.appointments[appointmentId];
      if a.userId != userId then Reply(Failed(Unauthorized), db)
      else if a.docId !in db.doctors then Reply(Failed(DoctorNotFound), db)
      else
        var doc := db.doctors[a.docId];
        Reply(Done, PutDoctor(db, a.docId, doc.(slotsBooked := Slots.ReleaseDropEmpty(doc.slotsBooked, a.slotDate, a.slotTime)))
                      .(appointments := db.appointments - {appointmentId}, order := Without(db.order, appointmentId)))
  }

  /**
   * The deletion as evidently intended: a cancelled appointment already gave its slot
   * back, so only a live one releases it.
   */
  function DeleteGuarded(db: Db, userId: Id, appointmentId: Id): (r: Reply)
    ensures !(appointmentId in db.appointments && db.appointments[appointmentId].cancelled) ==>
      r == Delete(db, userId, appointmentId)
    ensures appointmentId in db.appointments && db.appointments[appointmentId].cancelled ==>
      r.outcome == Delete(db, userId, appointmentId).outcome
      && (r.outcome == Done ==>
            r.db == db.(appointments := db.appointments - {appointmentId}, order := Without(db.order, appointmentId)))
      && (r.outcome.Failed? ==> r.db == db)
  {
    var r := Delete(db, userId, appointmentId);
    if r.outcome == Done && db.appointments[appointmentId].cancelled then
      Reply(Done, db.(appointments := db.appointments - {appointmentId}, order := Without(db.order, appointmentId)))
    else r
  }

  /** Deleting keeps `order` listing each remaining appointment once. */
  lemma DeleteOrder(db: Db, appointmentId: Id)
    requires OrderValid(db)
    ensures OrderValid(db.(appointments := db.appointments - {appointmentId}, order := Without(db.order, appointmentId)))
  {
    WithoutMembers(db.order, appointmentId);
    WithoutNoDuplicates(db.order, appointmentId);
    var o := Without(db.order, appointmentId);
    forall k | 0 <= k < |o| ensures o[k] in db.appointments - {appointmentId} {
      assert o[k] in o;
    }
  }

  /** The guarded deletion keeps the agreement and `order` valid. */
  lemma DeleteGuardedConsistent(db: Db, userId: Id, appointmentId: Id)
    requires Consistent(db) && OrderValid(db)
    ensures Consistent(DeleteGuarded(db, userId, appointmentId).db)
    ensures OrderValid(DeleteGuarded(db, userId, appointmentId).db)
  {
    var r := DeleteGuarded(db, userId, appointmentId);
    if r.outcome == Done {
      DeleteOrder(db, appointmentId);
      var a := db.appointments[appointmentId];
      if a.cancelled {
        DeleteCancelledConsistent(db, appointmentId);
        assert r.db.(order := db.order) == db.(appointments := db.appointments - {appointmentId});
        SameBookingsConsistent(db.(appointments := db.appointments - {appointmentId}), r.db);
      } else {
        var doc := db.doctors[a.docId];
        var doctor := doc.(slotsBooked := Slots.ReleaseDropEmpty(doc.slotsBooked, a.slotDate, a.slotTime));
        ReleasesRelease(doc.slotsBooked, a.slotDate, a.slotTime);
        DeleteLiveConsistent(db, appointmentId, doctor);
        SameBookingsConsistent(PutDoctor(db, a.docId, doctor).(appointments := db.appointments - {appointmentId}), r.db);
      }
    }
  }

  /**
   * Deleting a cancelled appointment whose slot another patient has booked since frees
   * that patient's slot: the agreement is broken.
   */
  lemma DeleteCancelledBreaks(db: Db, userId: Id, i: Id, j: Id)
    requires Consistent(db) && i in db.appointments && j in db.appointments
    requires db.appointments[i].userId == userId && db.appointments[i].cancelled
    requires Holds(db.appointments[j], db.appointments[i].docId, db.appointments[i].slotDate,
                   db.appointments[i].slotTime)
    ensures Delete(db, userId, i).outcome == Done
    ensures !Consistent(Delete(db, userId, i).db)
  {
    var a := db.appointments[i];
    var r := Delete(db, userId, i);
    assert i != j;
    assert r.db.appointments[j] == db.appointments[j];
    Slots.ReleaseDropEmptyBooked(db.doctors[a.docId].slotsBooked, a.slotDate, a.slotTime);
    ReleaseHeldBreaks(r.db, j);
  }

  // ---------------------------------------------------------------------------------
  // requestPayment

  /**
   * `requestPayment`: refused for an unknown appointment, another patient's appointment
   * or a confirmed payment; otherwise the status becomes pending.  A cancelled
   * appointment is not refused.
   */
  function RequestPay(db: Db, userId: Id, appointmentId: Id): (r: Reply)
    ensures r.outcome == Done <==>
      appointmentId in db.appointments && db.appointments[appointmentId].userId == userId
      && db.appointments[appointmentId].paymentStatus != PaymentConfirmed
    ensures r.outcome.Failed? ==> r.db == db
    ensures appointmentId in db.appointments && db.appointments[appointmentId].userId == userId
            && db.appointments[appointmentId].paymentStatus == PaymentConfirmed ==>
      r.outcome == Failed(AlreadyConfirmed)
    ensures r.outcome == Done ==>
      r.db == PutAppointment(db, appointmentId,
                             db.appointments[appointmentId].(paymentStatus := PaymentPending))
  {
    if appointmentId !in db.appointments then Reply(Failed(AppointmentNotFound), db)
    else
      var a := db.appointments[appointmentId];
      if a.userId != userId then Reply(Failed(Unauthorized), db)
      else
        match Payments.RequestPayment(a.paymentStatus)
        case None => Reply(Failed(AlreadyConfirmed), db)
        case Some(p) => Reply(Done, PutAppointment(db, appointmentId, a.(paymentStatus := p)))
  }

  /** The payment request leaves the bookings alone, and a pending request can be repeated. */
  lemma RequestPayConsistent(db: Db, userId: Id, appointmentId: Id)
    requires Consistent(db)
    ensures Consistent(RequestPay(db, userId, appointmentId).db)
    ensures RequestPay(db, userId, appointmentId).outcome == Done ==>
      RequestPay(RequestPay(db, userId, appointmentId).db, userId, appointmentId)
        == RequestPay(db, userId, appointmentId)
  {
    var r := RequestPay(db, userId, appointmentId);
    if r.outcome == Done {
      var a := db.appointments[appointmentId];
      assert Booking(r.db.appointments[appointmentId]) == Booking(a);
      SameBookingsConsistent(db, r.db);
    }
  }

  // ---------------------------------------------------------------------------------
  // the sequence that exposes both findings

  /**
   * A patient books a free slot and cancels it, and a second patient books the same slot:
   * every step is accepted, the clinic stays consistent, the first appointment is left
   * cancelled and the second holds the slot.
   */
  lemma Rebooked(db: Db, u1: Id, u2: Id, docId: Id, slotDate: string, slotTime: string,
                 now1: int, now2: int, id1: Id, id2: Id)
    requires Consistent(db) && OrderValid(db)
    requires id1 != id2 && id1 !in db.appointments && id2 !in db.appointments
    requires u1 != "" && u2 != "" && u1 in db.users && u2 in db.users
    requires docId != "" && slotDate != "" && slotTime != ""
    requires docId in db.doctors && db.doctors[docId].available
    requires !Slots.Booked(db.doctors[docId].slotsBooked, slotDate, slotTime)
    ensures var db1 := Book(db, u1, docId, slotDate, slotTime, now1, id1);
      var db2 := Cancel(db1.db, u1, id1);
      var db3 := Book(db2.db, u2, docId, slotDate, slotTime, now2, id2);
      db1.outcome == Done && db2.outcome == Done && db3.outcome == Done
      && Consistent(db3.db) && OrderValid(db3.db)
      && id1 in db3.db.appointments && db3.db.appointments[id1].userId == u1
      && db3.db.appointments[id1].cancelled
      && id2 in db3.db.appointments && Holds(db3.db.appointments[id2], docId, slotDate, slotTime)
  {
    var db1 := Book(db, u1, docId, slotDate, slotTime, now1, id1);
    BookConsistent(db, u1, docId, slotDate, slotTime, now1, id1);
    var db2 := Cancel(db1.db, u1, id1);
    assert CancelGuarded(db1.db, u1, id1) == db2;
    CancelGuardedConsistent(db1.db, u1, id1);
    PutAppointmentOrder(db1.db, id1, db1.db.appointments[id1].(cancelled := true));
    var m := db1.db.doctors[docId].slotsBooked;
    WithoutMembers(m[slotDate], slotTime);
    assert !Slots.Booked(db2.db.doctors[docId].slotsBooked, slotDate, slotTime);
    BookConsistent(db2.db, u2, docId, slotDate, slotTime, now2, id2);
  }

  /**
   * After that sequence the first patient's second cancellation is accepted and frees the
   * second patient's slot; the guarded cancellation refuses it.
   */
  lemma RecancelScenario(db: Db, u1: Id, u2: Id, docId: Id, slotDate: string, slotTime: string,
                         now1: int, now2: int, id1: Id, id2: Id)
    requires Consistent(db) && OrderValid(db)
    requires id1 != id2 && id1 !in db.appointments && id2 !in db.appointments
    requires u1 != "" && u2 != "" && u1 in db.users && u2 in db.users
    requires docId != "" && slotDate != "" && slotTime != ""
    requires docId in db.doctors && db.doctors[docId].available
    requires !Slots.Booked(db.doctors[docId].slotsBooked, slotDate, slotTime)
    ensures var db3 := Book(Cancel(Book(db, u1, docId, slotDate, slotTime, now1, id1).db, u1, id1).db,
                            u2, docId, slotDate, slotTime, now2, id2).db;
      Cancel(db3, u1, id1).outcome == Done && !Consistent(Cancel(db3, u1, id1).db)
      && CancelGuarded(db3, u1, id1) == Reply(Failed(AlreadyCancelled), db3)
  {
    Rebooked(db, u1, u2, docId, slotDate, slotTime, now1, now2, id1, id2);
    var db3 := Book(Cancel(Book(db, u1, docId, slotDate, slotTime, now1, id1).db, u1, id1).db,
                    u2, docId, slotDate, slotTime, now2, id2).db;
    RecancelBreaks(db3, u1, id1, id2);
  }

  /**
   * After that sequence deleting the first patient's cancelled appointment is accepted
   * and frees the second patient's slot; the guarded deletion keeps the clinic consistent.
   */
  lemma DeleteScenario(db: Db, u1: Id, u2: Id, docId: Id, slotDate: string, slotTime: string,
                       now1: int, now2: int, id1: Id, id2: Id)
    requires Consistent(db) && OrderValid(db)
    requires id1 != id2 && id1 !in db.appointments && id2 !in db.appointments
    requires u1 != "" && u2 != "" && u1 in db.users && u2 in db.users
    requires docId != "" && slotDate != "" && slotTime != ""
    requires docId in db.doctors && db.doctors[docId].available
    requires !Slots.Booked(db.doctors[docId].slotsBooked, slotDate, slotTime)
    ensures var db3 := Book(Cancel(Book(db, u1, docId, slotDate, slotTime, now1, id1).db, u1, id1).db,
                            u2, docId, slotDate, slotTime, now2, id2).db;
      Delete(db3, u1, id1).outcome == Done && !Consistent(Delete(db3, u1, id1).db)
      && DeleteGuarded(db3, u1, id1).outcome == Done && Consistent(DeleteGuarded(db3, u1, id1).db)
  {
    Rebooked(db, u1, u2, docId, slotDate, slotTime, now1, now2, id1, id2);
    var db3 := Book(Cancel(Book(db, u1, docId, slotDate, slotTime, now1, id1).db, u1, id1).db,
                    u2, docId, slotDate, slotTime, now2, id2).db;
    DeleteCancelledBreaks(db3, u1, id1, id2);
    DeleteGuardedConsistent(db3, u1, id1);
  }
}
