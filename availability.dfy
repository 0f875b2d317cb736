/**
 * The booking page's slot calculators: seven day-lists starting today, taken either from
 * the doctor's approved schedule or from an hourly template, minus the times already in
 * `slots_booked` under that day's `D_M_YYYY` key; and the key the page books with.
 * The current hour is a parameter; time zones are not modelled, so the ISO key and the
 * `D_M_YYYY` key of a day describe the same calendar day.
 */
module Availability {
  import opened Wrappers
  import opened Text
  import opened Calendar
  import opened Records
  import Slots

  /** One offered slot: the day and the `HH:MM` time shown on its button. */
  datatype Slot = Slot(date: CalendarDate, time: string)

  /** The label `toLocaleTimeString` gives a whole hour with two-digit hours and minutes. */
  function HourLabel(h: nat): string {
    Pad(h, 2) + ":00"
  }

  lemma HourLabelInjective(a: nat, b: nat)
    requires a < 100 && b < 100 && HourLabel(a) == HourLabel(b)
    ensures a == b
  {
    PadSmall(a);
    PadSmall(b);
    assert Pad(a, 2) == HourLabel(a)[..2] && Pad(b, 2) == HourLabel(b)[..2];
    PadInjective(a, b, 2);
  }

  /** `true` when `t` is already booked on `day`. */
  predicate BookedOn(booked: SlotMap, day: CalendarDate, t: string)
    requires Valid(day)
  {
    Slots.Booked(booked, SlotKey(day), t)
  }

  // ---------------------------------------------------------------------------------
  // the hourly template

  /** The first template hour of day `i`: `max(10, hour + 1)` today, 08:00 on the other days. */
  function StartHour(i: nat, nowHour: nat): nat {
    if i == 0 then (if nowHour + 1 > 10 then nowHour + 1 else 10) else 8
  }

  /** The template runs strictly before 19:00. */
  const EndHour: nat := 19

  /** The test the hour loop makes: the hour's label is not booked on `day`. */
  function FreeOn(booked: SlotMap, day: CalendarDate): (free: nat -> bool)
    requires Valid(day)
    ensures forall h: nat :: free(h) <==> !BookedOn(booked, day, HourLabel(h))
  {
    (h: nat) => !BookedOn(booked, day, HourLabel(h))
  }

  /** The hours in `[lo, hi)` that pass `free`, in increasing order. */
  function FreeHours(lo: nat, hi: nat, free: nat -> bool): seq<nat>
    decreases hi
  {
    if hi <= lo then []
    else
      var init := FreeHours(lo, hi - 1, free);
      if free(hi - 1) then init + [hi - 1] else init
  }

  /** The kept hours lie in the range and pass the test. */
  lemma {:induction false} FreeHoursInRange(lo: nat, hi: nat, free: nat -> bool)
    ensures forall k :: 0 <= k < |FreeHours(lo, hi, free)| ==>
      lo <= FreeHours(lo, hi, free)[k] < hi && free(FreeHours(lo, hi, free)[k])
    decreases hi
  {
    if hi > lo {
      FreeHoursInRange(lo, hi - 1, free);
    }
  }

  /** The kept hours go up. */
  lemma {:induction false} FreeHoursIncreasing(lo: nat, hi: nat, free: nat -> bool)
    ensures forall j, k :: 0 <= j < k < |FreeHours(lo, hi, free)| ==>
      FreeHours(lo, hi, free)[j] < FreeHours(lo, hi, free)[k]
    decreases hi
  {
    if hi > lo {
      FreeHoursIncreasing(lo, hi - 1, free);
      FreeHoursInRange(lo, hi - 1, free);
    }
  }

  /** The kept hours lie in the range, pass the test, and go up. */
  lemma FreeHoursMeaning(lo: nat, hi: nat, free: nat -> bool)
    ensures var hs := FreeHours(lo, hi, free);
      forall k :: 0 <= k < |hs| ==> lo <= hs[k] < hi && free(hs[k])
    ensures var hs := FreeHours(lo, hi, free);
      forall j, k :: 0 <= j < k < |hs| ==> hs[j] < hs[k]
  {
    FreeHoursInRange(lo, hi, free);
    FreeHoursIncreasing(lo, hi, free);
  }

  /** Every hour in the range that passes the test is kept. */
  lemma {:induction false} FreeHoursComplete(lo: nat, hi: nat, free: nat -> bool, h: nat)
    requires lo <= h < hi && free(h)
    ensures h in FreeHours(lo, hi, free)
    decreases hi
  {
    if h < hi - 1 {
      FreeHoursComplete(lo, hi - 1, free, h);
    }
  }

  /** The hours as slots of `day`. */
  function SlotsAt(day: CalendarDate, hs: seq<nat>): (r: seq<Slot>)
    ensures |r| == |hs|
  {
    if hs == [] then [] else SlotsAt(day, hs[..|hs| - 1]) + [Slot(day, HourLabel(hs[|hs| - 1]))]
  }

  lemma {:induction false} SlotsAtIndex(day: CalendarDate, hs: seq<nat>)
    ensures forall k :: 0 <= k < |hs| ==> SlotsAt(day, hs)[k] == Slot(day, HourLabel(hs[k]))
  {
    if hs != [] {
      SlotsAtIndex(day, hs[..|hs| - 1]);
    }
  }

  /** The template slots of `day` from hour `start`. */
  function FallbackList(day: CalendarDate, start: nat, booked: SlotMap): seq<Slot>
    requires Valid(day)
  {
    SlotsAt(day, FreeHours(start, EndHour, FreeOn(booked, day)))
  }

  /** The template list of day `i` (today + `i`). */
  function FallbackDay(today: CalendarDate, i: nat, nowHour: nat, booked: SlotMap): seq<Slot>
    requires Valid(today)
  {
    FallbackList(AddDays(today, i), StartHour(i, nowHour), booked)
  }

  /**
   * Every template slot is on its day, at a whole hour from the start hour up to 18:00,
   * not booked, and the list goes up by the hour; every free hour in that range is offered.
   */
  lemma FallbackListMeaning(day: CalendarDate, start: nat, booked: SlotMap)
    requires Valid(day)
    ensures var r := FallbackList(day, start, booked);
      forall k :: 0 <= k < |r| ==> r[k].date == day && !BookedOn(booked, day, r[k].time)
    ensures var hs := FreeHours(start, EndHour, FreeOn(booked, day));
      FallbackList(day, start, booked) == SlotsAt(day, hs)
      && (forall k :: 0 <= k < |hs| ==> start <= hs[k] < EndHour)
      && (forall j, k :: 0 <= j < k < |hs| ==> hs[j] < hs[k])
    ensures forall h: nat ::
      (start <= h < EndHour && !BookedOn(booked, day, HourLabel(h))) ==> Slot(day, HourLabel(h)) in FallbackList(day, start, booked)
  {
    var free := FreeOn(booked, day);
    var hs := FreeHours(start, EndHour, free);
    var r := FallbackList(day, start, booked);
    SlotsAtIndex(day, hs);
    FreeHoursMeaning(start, EndHour, free);
    forall h: nat | start <= h < EndHour && !BookedOn(booked, day, HourLabel(h))
      ensures Slot(day, HourLabel(h)) in r
    {
      FreeHoursComplete(start, EndHour, free, h);
      var k :| 0 <= k < |hs| && hs[k] == h;
      assert r[k] == Slot(day, HourLabel(h));
    }
  }

  lemma FreeHoursStep(lo: nat, h: nat, free: nat -> bool)
    requires lo <= h
    ensures FreeHours(lo, h + 1, free) == FreeHours(lo, h, free) + (if free(h) then [h] else [])
  {
  }

  lemma SlotsAtAppend(day: CalendarDate, hs: seq<nat>, h: nat)
    ensures SlotsAt(day, hs + [h]) == SlotsAt(day, hs) + [Slot(day, HourLabel(h))]
  {
    assert (hs + [h])[..|hs|] == hs;
  }

  /** One step of the hour loop: the hour is kept exactly when its label is not booked. */
  lemma FallbackStep(day: CalendarDate, start: nat, booked: SlotMap, h: nat, hs: seq<nat>)
    requires Valid(day) && start <= h && hs == FreeHours(start, h, FreeOn(booked, day))
    ensures !Slots.Booked(booked, SlotKey(day), HourLabel(h)) ==>
      FreeHours(start, h + 1, FreeOn(booked, day)) == hs + [h]
      && SlotsAt(day, hs + [h]) == SlotsAt(day, hs) + [Slot(day, HourLabel(h))]
    ensures Slots.Booked(booked, SlotKey(day), HourLabel(h)) ==>
      FreeHours(start, h + 1, FreeOn(booked, day)) == hs
  {
    FreeHoursStep(start, h, FreeOn(booked, day));
    SlotsAtAppend(day, hs, h);
  }

  /** One day of the template: step an hour at a time from `start` while before 19:00. */
  method FallbackHours(day: CalendarDate, start: nat, booked: SlotMap) returns (timeSlots: seq<Slot>)
    requires Valid(day)
    ensures timeSlots == FallbackList(day, start, booked)
  {
    var h: nat := start;
    timeSlots := [];
    ghost var hs: seq<nat> := [];
    while h < EndHour
      invariant start <= h <= (if start < EndHour then EndHour else start)
      invariant hs == FreeHours(start, h, FreeOn(booked, day)) && timeSlots == SlotsAt(day, hs)
    {
      var hourText := HourLabel(h);
      FallbackStep(day, start, booked, h, hs);
      if !Slots.Booked(booked, SlotKey(day), hourText) {
        timeSlots := timeSlots + [Slot(day, hourText)];
        hs := hs + [h];
      }
      h := h + 1;
    }
  }

  /**
   * `getAvailableSlotsFallback`: for each of seven days, the template hours from the day's
   * start hour that are not booked.
   */
  method AvailableSlotsFallback(today: CalendarDate, nowHour: nat, booked: SlotMap)
    returns (all: seq<seq<Slot>>)
    requires Valid(today)
    ensures |all| == 7
    ensures forall i :: 0 <= i < 7 ==> all[i] == FallbackDay(today, i, nowHour, booked)
  {
    all := [];
    var i := 0;
    while i < 7
      invariant 0 <= i <= 7 && |all| == i
      invariant forall j :: 0 <= j < i ==> all[j] == FallbackDay(today, j, nowHour, booked)
    {
      var timeSlots := FallbackHours(AddDays(today, i), StartHour(i, nowHour), booked);
      ghost var prev := all;
      all := all + [timeSlots];
      forall j | 0 <= j <= i ensures all[j] == FallbackDay(today, j, nowHour, booked) {
        if j < i {
          assert all[j] == prev[j];
        }
      }
      i := i + 1;
    }
  }

  // ---------------------------------------------------------------------------------
  // the approved schedule

  /** The times of `times` not booked on `day`, in their order, as slots of that day. */
  function FreeSlots(day: CalendarDate, times: seq<string>, booked: SlotMap): (r: seq<Slot>)
    requires Valid(day)
    ensures |r| <= |times|
    ensures forall k :: 0 <= k < |r| ==> r[k].date == day && r[k].time in times && !BookedOn(booked, day, r[k].time)
  {
    if times == [] then []
    else
      var init := FreeSlots(day, times[..|times| - 1], booked);
      var t := times[|times| - 1];
      if BookedOn(booked, day, t) then init else init + [Slot(day, t)]
  }

  /** Filtering distributes over concatenation, so the schedule's order is kept. */
  lemma {:induction false} FreeSlotsConcat(day: CalendarDate, a: seq<string>, b: seq<string>, booked: SlotMap)
    requires Valid(day)
    ensures FreeSlots(day, a + b, booked) == FreeSlots(day, a, booked) + FreeSlots(day, b, booked)
    decreases |b|
  {
    if b == [] {
      assert a + b == a;
    } else {
      var c := b[..|b| - 1];
      assert (a + b)[..|a + b| - 1] == a + c;
      assert (a + b)[|a + b| - 1] == b[|b| - 1];
      FreeSlotsConcat(day, a, c, booked);
    }
  }

  /** Every listed time that is not booked is offered. */
  lemma {:induction false} FreeSlotsComplete(day: CalendarDate, times: seq<string>, booked: SlotMap, t: string)
    requires Valid(day) && t in times && !BookedOn(booked, day, t)
    ensures Slot(day, t) in FreeSlots(day, times, booked)
  {
    var init := times[..|times| - 1];
    if times[|times| - 1] != t {
      assert times == init + [times[|times| - 1]];
      FreeSlotsComplete(day, init, booked, t);
    }
  }

  /** The schedule's list for day `i`: `schedule?.[dateKey] || []` minus the booked times. */
  function ScheduleDay(today: CalendarDate, i: nat, schedule: SlotMap, booked: SlotMap): seq<Slot>
    requires Valid(today)
  {
    var day := AddDays(today, i);
    FreeSlots(day, Slots.TimesOn(schedule, IsoKey(day)), booked)
  }

  /** `getAvailableSlotsFromSchedule`: seven days, each the day's scheduled times that are free. */
  method AvailableSlotsFromSchedule(today: CalendarDate, schedule: SlotMap, booked: SlotMap)
    returns (all: seq<seq<Slot>>)
    requires Valid(today)
    ensures |all| == 7
    ensures forall i :: 0 <= i < 7 ==> all[i] == ScheduleDay(today, i, schedule, booked)
  {
    all := [];
    var i := 0;
    while i < 7
      invariant 0 <= i <= 7 && |all| == i
      invariant forall j :: 0 <= j < i ==> all[j] == ScheduleDay(today, j, schedule, booked)
    {
      var day := AddDays(today, i);
      var timeList := Slots.TimesOn(schedule, IsoKey(day));
      var daySlots: seq<Slot> := [];
      var k := 0;
      while k < |timeList|
        invariant 0 <= k <= |timeList|
        invariant daySlots == FreeSlots(day, timeList[..k], booked)
      {
        var t := timeList[k];
        assert timeList[..k + 1][..k] == timeList[..k];
        if !Slots.Booked(booked, SlotKey(day), t) {
          daySlots := daySlots + [Slot(day, t)];
        }
        k := k + 1;
      }
      assert timeList[..k] == timeList;
      all := all + [daySlots];
      i := i + 1;
    }
  }

  // ---------------------------------------------------------------------------------
  // choice and booking key

  /** `workingSchedule && Object.keys(workingSchedule).length > 0`. */
  predicate HasSchedule(schedule: SlotMap) {
    |schedule| > 0
  }

  /** The calculator the page runs for a doctor: the schedule when it has a key, else the template. */
  method AvailableSlots(today: CalendarDate, nowHour: nat, doctor: Doctor) returns (all: seq<seq<Slot>>)
    requires Valid(today)
    ensures |all| == 7
    ensures HasSchedule(doctor.workingSchedule) ==>
      forall i :: 0 <= i < 7 ==> all[i] == ScheduleDay(today, i, doctor.workingSchedule, doctor.slotsBooked)
    ensures !HasSchedule(doctor.workingSchedule) ==>
      forall i :: 0 <= i < 7 ==> all[i] == FallbackDay(today, i, nowHour, doctor.slotsBooked)
  {
    if |doctor.workingSchedule| > 0 {
      all := AvailableSlotsFromSchedule(today, doctor.workingSchedule, doctor.slotsBooked);
    } else {
      all := AvailableSlotsFallback(today, nowHour, doctor.slotsBooked);
    }
  }

  /** Day `i` of either calculator: its slots are on today + `i` and none is booked. */
  predicate DayListGood(today: CalendarDate, i: nat, slots: seq<Slot>, booked: SlotMap)
    requires Valid(today)
  {
    forall k :: 0 <= k < |slots| ==> slots[k].date == AddDays(today, i) && !BookedOn(booked, AddDays(today, i), slots[k].time)
  }

  lemma CalculatorsGood(today: CalendarDate, i: nat, nowHour: nat, schedule: SlotMap, booked: SlotMap)
    requires Valid(today)
    ensures DayListGood(today, i, ScheduleDay(today, i, schedule, booked), booked)
    ensures DayListGood(today, i, FallbackDay(today, i, nowHour, booked), booked)
  {
    FallbackListMeaning(AddDays(today, i), StartHour(i, nowHour), booked);
  }

  /**
   * The `slotDate` the page sends: the `D_M_YYYY` key of the first slot of the selected
   * day; None when that day has no slot (`docSlots[slotIndex][0]` is undefined).
   */
  function BookingKey(all: seq<seq<Slot>>, slotIndex: nat): (r: Option<string>)
    requires forall i, k :: 0 <= i < |all| && 0 <= k < |all[i]| ==> Valid(all[i][k].date)
    ensures r.None? <==> slotIndex >= |all| || all[slotIndex] == []
  {
    if slotIndex < |all| && all[slotIndex] != [] then Some(SlotKey(all[slotIndex][0].date)) else None
  }

  /** For the calculators' lists the key sent is the unpadded key of today + `i`. */
  lemma BookingKeyIsDayKey(today: CalendarDate, all: seq<seq<Slot>>, booked: SlotMap, i: nat)
    requires Valid(today) && i < |all|
    requires forall j :: 0 <= j < |all| ==> DayListGood(today, j, all[j], booked)
    ensures forall j, k :: 0 <= j < |all| && 0 <= k < |all[j]| ==> Valid(all[j][k].date)
    ensures all[i] != [] ==> BookingKey(all, i) == Some(SlotKey(AddDays(today, i)))
  {
  }

  /** Once (`day`, `t`) is booked, recomputing that day's list no longer offers `t`. */
  lemma BookedSlotNotOffered(today: CalendarDate, i: nat, nowHour: nat, schedule: SlotMap, booked: SlotMap, t: string)
    requires Valid(today)
    ensures var after := Slots.AddTime(booked, SlotKey(AddDays(today, i)), t);
      Slot(AddDays(today, i), t) !in ScheduleDay(today, i, schedule, after)
      && Slot(AddDays(today, i), t) !in FallbackDay(today, i, nowHour, after)
  {
    var after := Slots.AddTime(booked, SlotKey(AddDays(today, i)), t);
    Slots.AddTimeBooked(booked, SlotKey(AddDays(today, i)), t);
    CalculatorsGood(today, i, nowHour, schedule, after);
  }
}
