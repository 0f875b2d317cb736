/**
 * The agreement the booking handlers are meant to keep between the appointments and the
 * doctors' `slots_booked`: a live (not cancelled) appointment's slot is marked booked, a
 * booked slot is held by a live appointment, no slot is held twice, and no list repeats
 * a time.  The lemmas here say which kinds of writes keep that agreement and which break it.
 */
module Consistency {
  import opened Records
  import opened Backend
  import Slots

  /** Appointment `a` holds time `t` on date key `d` with doctor `doc`. */
  predicate Holds(a: Appointment, doc: Id, d: string, t: string) {
    !a.cancelled && a.docId == doc && a.slotDate == d && a.slotTime == t
  }

  /** Every live appointment's slot is booked for its doctor. */
  ghost predicate LiveBooked(db: Db) {
    forall id :: id in db.appointments && !db.appointments[id].cancelled ==>
      db.appointments[id].docId in db.doctors
      && Slots.Booked(db.doctors[db.appointments[id].docId].slotsBooked,
                      db.appointments[id].slotDate, db.appointments[id].slotTime)
  }

  /** Every booked slot is held by a live appointment. */
  ghost predicate BookedHeld(db: Db) {
    forall doc, d, t :: doc in db.doctors && Slots.Booked(db.doctors[doc].slotsBooked, d, t) ==>
      exists id :: id in db.appointments && Holds(db.appointments[id], doc, d, t)
  }

  /** No two live appointments hold the same slot. */
  ghost predicate NoDoubleBooking(db: Db) {
    forall i, j :: i in db.appointments && j in db.appointments && !db.appointments[i].cancelled
      && Holds(db.appointments[j], db.appointments[i].docId, db.appointments[i].slotDate, db.appointments[i].slotTime)
      ==> i == j
  }

  ghost predicate ListsClean(db: Db) {
    forall doc :: doc in db.doctors ==> Slots.ListsDuplicateFree(db.doctors[doc].slotsBooked)
  }

  ghost predicate Consistent(db: Db) {
    LiveBooked(db) && BookedHeld(db) && NoDoubleBooking(db) && ListsClean(db)
  }

  /** An empty clinic is consistent. */
  lemma EmptyConsistent()
    ensures Consistent(Db(map[], map[], map[], [], map[]))
  {
  }

  // ---------------------------------------------------------------------------------
  // writes that leave the bookings alone

  /** What the agreement reads of an appointment. */
  function Booking(a: Appointment): (bool, Id, string, string) {
    (a.cancelled, a.docId, a.slotDate, a.slotTime)
  }

  /** The same doctors with the same booked slots, and the same appointments with the same bookings. */
  ghost predicate SameBookings(a: Db, b: Db) {
    a.doctors.Keys == b.doctors.Keys
    && (forall doc :: doc in a.doctors ==> b.doctors[doc].slotsBooked == a.doctors[doc].slotsBooked)
    && a.appointments.Keys == b.appointments.Keys
    && (forall id :: id in a.appointments ==> Booking(b.appointments[id]) == Booking(a.appointments[id]))
  }

  /** A write that changes nothing the agreement reads keeps it. */
  lemma SameBookingsConsistent(a: Db, b: Db)
    requires SameBookings(a, b) && Consistent(a)
    ensures Consistent(b)
  {
    forall doc, d, t | doc in b.doctors && Slots.Booked(b.doctors[doc].slotsBooked, d, t)
      ensures exists id :: id in b.appointments && Holds(b.appointments[id], doc, d, t)
    {
      var id :| id in a.appointments && Holds(a.appointments[id], doc, d, t);
      assert Booking(b.appointments[id]) == Booking(a.appointments[id]);
    }
    forall i, j | i in b.appointments && j in b.appointments && !b.appointments[i].cancelled
      && Holds(b.appointments[j], b.appointments[i].docId, b.appointments[i].slotDate, b.appointments[i].slotTime)
      ensures i == j
    {
      assert Booking(b.appointments[i]) == Booking(a.appointments[i]);
      assert Booking(b.appointments[j]) == Booking(a.appointments[j]);
    }
    forall id | id in b.appointments && !b.appointments[id].cancelled
      ensures b.appointments[id].docId in b.doctors
              && Slots.Booked(b.doctors[b.appointments[id].docId].slotsBooked,
                              b.appointments[id].slotDate, b.appointments[id].slotTime)
    {
      assert Booking(b.appointments[id]) == Booking(a.appointments[id]);
    }
  }

  /** A new doctor with no booked slots keeps the agreement. */
  lemma AddDoctorConsistent(db: Db, id: Id, d: Doctor)
    requires Consistent(db) && id !in db.doctors && |d.slotsBooked| == 0
    ensures Consistent(PutDoctor(db, id, d))
  {
    var r := PutDoctor(db, id, d);
    forall doc, day, t | doc in r.doctors && Slots.Booked(r.doctors[doc].slotsBooked, day, t)
      ensures exists k :: k in r.appointments && Holds(r.appointments[k], doc, day, t)
    {
      assert doc != id;
    }
  }

  // ---------------------------------------------------------------------------------
  // booking and releasing

  /**
   * Booking a free slot: a new live appointment holding it, and the slot appended to its
   * doctor's list, keep the agreement.
   */
  lemma BookConsistent(db: Db, newId: Id, a: Appointment, doctor: Doctor)
    requires Consistent(db) && newId !in db.appointments
    requires !a.cancelled && a.docId in db.doctors
    requires !Slots.Booked(db.doctors[a.docId].slotsBooked, a.slotDate, a.slotTime)
    requires doctor.slotsBooked == Slots.AddTime(db.doctors[a.docId].slotsBooked, a.slotDate, a.slotTime)
    ensures Consistent(PutDoctor(PutAppointment(db, newId, a), a.docId, doctor))
  {
    var m := db.doctors[a.docId].slotsBooked;
    var r := PutDoctor(PutAppointment(db, newId, a), a.docId, doctor);
    Slots.AddTimeBooked(m, a.slotDate, a.slotTime);
    Slots.AddTimeDuplicateFree(m, a.slotDate, a.slotTime);
    forall id | id in r.appointments && !r.appointments[id].cancelled
      ensures r.appointments[id].docId in r.doctors
              && Slots.Booked(r.doctors[r.appointments[id].docId].slotsBooked,
                              r.appointments[id].slotDate, r.appointments[id].slotTime)
    {
      if id != newId {
        assert r.appointments[id] == db.appointments[id];
      }
    }
    forall doc, d, t | doc in r.doctors && Slots.Booked(r.doctors[doc].slotsBooked, d, t)
      ensures exists id :: id in r.appointments && Holds(r.appointments[id], doc, d, t)
    {
      if doc == a.docId && d == a.slotDate && t == a.slotTime {
        assert Holds(r.appointments[newId], doc, d, t);
      } else {
        assert Slots.Booked(db.doctors[doc].slotsBooked, d, t);
        var id :| id in db.appointments && Holds(db.appointments[id], doc, d, t);
        assert id != newId && r.appointments[id] == db.appointments[id];
      }
    }
    forall i, j | i in r.appointments && j in r.appointments && !r.appointments[i].cancelled
      && Holds(r.appointments[j], r.appointments[i].docId, r.appointments[i].slotDate, r.appointments[i].slotTime)
      ensures i == j
    {
      if i != newId && j != newId {
        assert r.appointments[i] == db.appointments[i] && r.appointments[j] == db.appointments[j];
      }
    }
  }

  /** `after` is `before` with exactly the pair (`d`, `t`) no longer booked, and still clean. */
  ghost predicate Released(before: SlotMap, after: SlotMap, d: string, t: string) {
    (forall d', t' :: Slots.Booked(after, d', t') <==> Slots.Booked(before, d', t') && !(d' == d && t' == t))
    && Slots.ListsDuplicateFree(after)
  }

  /** Both ways the handlers filter a time out of a clean list release exactly that pair. */
  lemma ReleasesRelease(m: SlotMap, d: string, t: string)
    requires Slots.ListsDuplicateFree(m)
    ensures Released(m, Slots.ReleaseDropEmpty(m, d, t), d, t)
    ensures d in m ==> Released(m, Slots.ReleaseKeepKey(m, d, t), d, t)
  {
    Slots.ReleaseDropEmptyBooked(m, d, t);
    Slots.ReleaseDuplicateFree(m, d, t);
    if d in m {
      Slots.ReleaseKeepKeyBooked(m, d, t);
    }
  }

  /**
   * Cancelling a live appointment and releasing its slot from its doctor's list keeps
   * the agreement.
   */
  lemma CancelLiveConsistent(db: Db, id: Id, doctor: Doctor)
    requires Consistent(db) && id in db.appointments && !db.appointments[id].cancelled
    requires Released(db.doctors[db.appointments[id].docId].slotsBooked, doctor.slotsBooked,
                      db.appointments[id].slotDate, db.appointments[id].slotTime)
    ensures Consistent(PutDoctor(PutAppointment(db, id, db.appointments[id].(cancelled := true)),
                                 db.appointments[id].docId, doctor))
  {
    var a := db.appointments[id];
    var r := PutDoctor(PutAppointment(db, id, a.(cancelled := true)), a.docId, doctor);
    forall k | k in r.appointments && !r.appointments[k].cancelled
      ensures r.appointments[k].docId in r.doctors
              && Slots.Booked(r.doctors[r.appointments[k].docId].slotsBooked,
                              r.appointments[k].slotDate, r.appointments[k].slotTime)
    {
      assert k != id && r.appointments[k] == db.appointments[k];
    }
    forall doc, d, t | doc in r.doctors && Slots.Booked(r.doctors[doc].slotsBooked, d, t)
      ensures exists k :: k in r.appointments && Holds(r.appointments[k], doc, d, t)
    {
      assert Slots.Booked(db.doctors[doc].slotsBooked, d, t);
      var k :| k in db.appointments && Holds(db.appointments[k], doc, d, t);
      assert k != id;
      assert r.appointments[k] == db.appointments[k];
    }
    forall i, j | i in r.appointments && j in r.appointments && !r.appointments[i].cancelled
      && Holds(r.appointments[j], r.appointments[i].docId, r.appointments[i].slotDate, r.appointments[i].slotTime)
      ensures i == j
    {
      assert i != id && j != id;
      assert r.appointments[i] == db.appointments[i] && r.appointments[j] == db.appointments[j];
    }
  }

  /** Deleting a live appointment and releasing its slot keeps the agreement. */
  lemma DeleteLiveConsistent(db: Db, id: Id, doctor: Doctor)
    requires Consistent(db) && id in db.appointments && !db.appointments[id].cancelled
    requires Released(db.doctors[db.appointments[id].docId].slotsBooked, doctor.slotsBooked,
                      db.appointments[id].slotDate, db.appointments[id].slotTime)
    ensures Consistent(PutDoctor(db, db.appointments[id].docId, doctor).(appointments := db.appointments - {id}))
  {
    var a := db.appointments[id];
    var r := PutDoctor(db, a.docId, doctor).(appointments := db.appointments - {id});
    forall doc, d, t | doc in r.doctors && Slots.Booked(r.doctors[doc].slotsBooked, d, t)
      ensures exists k :: k in r.appointments && Holds(r.appointments[k], doc, d, t)
    {
      assert Slots.Booked(db.doctors[doc].slotsBooked, d, t);
      var k :| k in db.appointments && Holds(db.appointments[k], doc, d, t);
      assert k != id;
      assert k in r.appointments;
    }
    forall k | k in r.appointments && !r.appointments[k].cancelled
      ensures r.appointments[k].docId in r.doctors
              && Slots.Booked(r.doctors[r.appointments[k].docId].slotsBooked,
                              r.appointments[k].slotDate, r.appointments[k].slotTime)
    {
      assert db.appointments[k] == r.appointments[k];
    }
  }

  /** Deleting a cancelled appointment and leaving the lists alone keeps the agreement. */
  lemma DeleteCancelledConsistent(db: Db, id: Id)
    requires Consistent(db) && id in db.appointments && db.appointments[id].cancelled
    ensures Consistent(db.(appointments := db.appointments - {id}))
  {
    var r := db.(appointments := db.appointments - {id});
    forall doc, d, t | doc in r.doctors && Slots.Booked(r.doctors[doc].slotsBooked, d, t)
      ensures exists k :: k in r.appointments && Holds(r.appointments[k], doc, d, t)
    {
      var k :| k in db.appointments && Holds(db.appointments[k], doc, d, t);
      assert k != id;
      assert k in r.appointments;
    }
  }

  /**
   * A write that releases a slot a live appointment still holds, and leaves that
   * appointment as it was, breaks the agreement.
   */
  lemma ReleaseHeldBreaks(r: Db, j: Id)
    requires j in r.appointments && !r.appointments[j].cancelled
    requires r.appointments[j].docId in r.doctors
    requires !Slots.Booked(r.doctors[r.appointments[j].docId].slotsBooked,
                           r.appointments[j].slotDate, r.appointments[j].slotTime)
    ensures !Consistent(r)
  {
  }

  // ---------------------------------------------------------------------------------
  // diagnosis links

  /**
   * An appointment's `diagnosisId` names a stored diagnosis, and that diagnosis names
   * the appointment back.
   */
  ghost predicate DiagnosesLinked(db: Db) {
    forall id :: id in db.appointments && db.appointments[id].diagnosisId.Some? ==>
      db.appointments[id].diagnosisId.value in db.diagnoses
      && db.diagnoses[db.appointments[id].diagnosisId.value].appointmentId == id
  }
}
