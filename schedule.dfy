/**
 * Working schedules: the nine-value time allow-list, the backend's all-or-nothing check of
 * a submitted request, and the doctor's schedule editor (the initial 15-day map, toggling
 * a time on the selected date, and picking a date on the calendar).
 *
 * `new Date(dateStr)` is the parameter `parse` (None for an invalid date). The backend
 * compares whole instants; `WholeDays` is the day-granular rule the editor evidently
 * expects, kept beside it so the two can be compared.
 */
module Schedule {
  import opened Wrappers
  import opened Seqs
  import opened Calendar
  import opened Records
  import Slots

  /** `allowedTimes` on the backend and `timeSlots` in the editor: the same nine values. */
  const AllowedTimes: seq<string> :=
    ["08:00", "09:00", "10:00", "11:00", "13:00", "14:00", "15:00", "16:00", "17:00"]

  predicate AllAllowed(times: seq<string>) {
    forall i :: 0 <= i < |times| ==> times[i] in AllowedTimes
  }

  /** How "no earlier than today and no later than today + 15 days" is read. */
  datatype WindowRule =
    | ExactInstant  // `date < today || date > maxDate` on instants, as the backend does it
    | WholeDays     // the same bounds compared on calendar days

  predicate InWindow(rule: WindowRule, t: Instant, now: Instant)
    requires ValidInstant(now)
  {
    match rule
    case ExactInstant => !InstantBefore(t, now) && !InstantBefore(PlusDays(now, 15), t)
    case WholeDays => !Before(t.date, now.date) && !Before(AddDays(now.date, 15), t.date)
  }

  predicate EntryAccepted(rule: WindowRule, key: string, times: seq<string>, now: Instant,
                          parse: string -> Option<Instant>)
    requires ValidInstant(now)
  {
    parse(key).Some? && InWindow(rule, parse(key).value, now) && AllAllowed(times)
  }

  /** Every entry of the request passes; one bad entry refuses the whole request. */
  predicate RequestAccepted(rule: WindowRule, req: SlotMap, now: Instant, parse: string -> Option<Instant>)
    requires ValidInstant(now)
  {
    forall k :: k in req ==> EntryAccepted(rule, k, req[k], now, parse)
  }

  datatype ScheduleError =
    | InvalidDateFormat(key: string)
    | OutOfRange(key: string)
    | InvalidTimeSlot(time: string, key: string)
  {
    function Key(): string {
      match this
      case InvalidDateFormat(k) => k
      case OutOfRange(k) => k
      case InvalidTimeSlot(_, k) => k
    }
  }

  /** The first time that is not allowed, if any. */
  function FirstBadTime(times: seq<string>): (r: Option<nat>)
    ensures r.None? <==> AllAllowed(times)
    ensures r.Some? ==> r.value < |times| && times[r.value] !in AllowedTimes
    ensures r.Some? ==> AllAllowed(times[..r.value])
  {
    if times == [] then None
    else if times[0] !in AllowedTimes then Some(0)
    else
      var rest := FirstBadTime(times[1..]);
      if rest.None? then None
      else
        assert times[..rest.value + 1] == [times[0]] + times[1..][..rest.value];
        Some(rest.value + 1)
  }

  /** The message one entry produces: its date first, then its times in order. */
  function EntryError(rule: WindowRule, key: string, times: seq<string>, now: Instant,
                      parse: string -> Option<Instant>): (r: Option<ScheduleError>)
    requires ValidInstant(now)
    ensures r.None? <==> EntryAccepted(rule, key, times, now, parse)
    ensures r.Some? ==> r.value.Key() == key
    ensures r.Some? && r.value.InvalidTimeSlot? ==> r.value.time in times && r.value.time !in AllowedTimes
  {
    match parse(key)
    case None => Some(InvalidDateFormat(key))
    case Some(t) =>
      if !InWindow(rule, t, now) then Some(OutOfRange(key))
      else
        match FirstBadTime(times)
        case None => None
        case Some(i) => Some(InvalidTimeSlot(times[i], key))
  }

  /** Object.entries order: every key once, as `keys` lists them. */
  ghost predicate EntryOrder(req: SlotMap, keys: seq<string>) {
    NoDuplicates(keys) && (forall k :: k in req <==> k in keys)
  }

  /** The error of the first failing entry in `keys` order. */
  function FirstError(rule: WindowRule, req: SlotMap, keys: seq<string>, now: Instant,
                      parse: string -> Option<Instant>): Option<ScheduleError>
    requires ValidInstant(now)
    requires forall i :: 0 <= i < |keys| ==> keys[i] in req
    decreases |keys|
  {
    if keys == [] then None
    else
      var e := EntryError(rule, keys[0], req[keys[0]], now, parse);
      if e.Some? then e else FirstError(rule, req, keys[1..], now, parse)
  }

  /** No error is reported exactly when every listed entry passes; a reported error names a failing entry. */
  lemma {:induction false} FirstErrorMeaning(rule: WindowRule, req: SlotMap, keys: seq<string>, now: Instant,
                                             parse: string -> Option<Instant>)
    requires ValidInstant(now)
    requires forall i :: 0 <= i < |keys| ==> keys[i] in req
    ensures FirstError(rule, req, keys, now, parse).None?
            <==> forall i :: 0 <= i < |keys| ==> EntryAccepted(rule, keys[i], req[keys[i]], now, parse)
    ensures FirstError(rule, req, keys, now, parse).Some? ==>
              var k := FirstError(rule, req, keys, now, parse).value.Key();
              k in keys && !EntryAccepted(rule, k, req[k], now, parse)
    decreases |keys|
  {
    if keys != [] {
      FirstErrorMeaning(rule, req, keys[1..], now, parse);
      assert forall i :: 1 <= i < |keys| ==> keys[i] == keys[1..][i - 1];
    }
  }

  /** Over the whole request: refused exactly when some entry fails. */
  lemma FirstErrorIffRefused(rule: WindowRule, req: SlotMap, keys: seq<string>, now: Instant,
                             parse: string -> Option<Instant>)
    requires ValidInstant(now) && EntryOrder(req, keys)
    ensures forall i :: 0 <= i < |keys| ==> keys[i] in req
    ensures FirstError(rule, req, keys, now, parse).None? <==> RequestAccepted(rule, req, now, parse)
  {
    FirstErrorMeaning(rule, req, keys, now, parse);
    if FirstError(rule, req, keys, now, parse).None? {
      forall k | k in req ensures EntryAccepted(rule, k, req[k], now, parse) {
        var i :| 0 <= i < |keys| && keys[i] == k;
      }
    }
  }

  /**
   * The validation loop of `requestWorkingSchedule`: entries in order, for each its date and
   * then its times, stopping at the first failure.
   */
  method Validate(rule: WindowRule, req: SlotMap, keys: seq<string>, now: Instant,
                  parse: string -> Option<Instant>) returns (err: Option<ScheduleError>)
    requires ValidInstant(now) && EntryOrder(req, keys)
    ensures forall i :: 0 <= i < |keys| ==> keys[i] in req
    ensures err == FirstError(rule, req, keys, now, parse)
    ensures err.None? <==> RequestAccepted(rule, req, now, parse)
  {
    FirstErrorIffRefused(rule, req, keys, now, parse);
    var i := 0;
    while i < |keys|
      invariant 0 <= i <= |keys|
      invariant FirstError(rule, req, keys, now, parse) == FirstError(rule, req, keys[i..], now, parse)
    {
      var key := keys[i];
      var times := req[key];
      assert keys[i..][0] == key && keys[i..][1..] == keys[i + 1..];
      var date := parse(key);
      if date.None? {
        return Some(InvalidDateFormat(key));
      }
      if !InWindow(rule, date.value, now) {
        return Some(OutOfRange(key));
      }
      var j := 0;
      while j < |times|
        invariant 0 <= j <= |times|
        invariant AllAllowed(times[..j])
      {
        if times[j] !in AllowedTimes {
          return Some(InvalidTimeSlot(times[j], key));
        }
        assert times[..j + 1] == times[..j] + [times[j]];
        j := j + 1;
      }
      assert times[..j] == times;
      i := i + 1;
    }
    return None;
  }

  // ---------------------------------------------------------------------------------
  // the editor

  /** The ISO key of the day `i` days after `today`. */
  function DayKey(today: CalendarDate, i: nat): string
    requires Valid(today)
  {
    IsoKey(AddDays(today, i))
  }

  lemma DayKeysDistinct(today: CalendarDate, i: nat, j: nat)
    requires Valid(today) && i != j
    ensures DayKey(today, i) != DayKey(today, j)
  {
    AddDaysDistinct(today, i, j);
    if DayKey(today, i) == DayKey(today, j) {
      IsoKeyInjective(AddDays(today, i), AddDays(today, j));
    }
  }

  /** The first `n` days from `today`, each mapped to an empty list. */
  function EmptyDays(today: CalendarDate, n: nat): SlotMap
    requires Valid(today)
  {
    if n == 0 then map[] else EmptyDays(today, n - 1)[DayKey(today, n - 1) := []]
  }

  /** The keys are today through today + n - 1. */
  lemma {:induction false} EmptyDaysKeys(today: CalendarDate, n: nat)
    requires Valid(today)
    ensures forall k :: k in EmptyDays(today, n) <==> exists j: nat :: j < n && k == DayKey(today, j)
  {
    if n > 0 {
      EmptyDaysKeys(today, n - 1);
      var prev := EmptyDays(today, n - 1);
      var last := DayKey(today, n - 1);
      forall k ensures k in EmptyDays(today, n) <==> exists j: nat :: j < n && k == DayKey(today, j) {
        if k in prev {
          var j: nat :| j < n - 1 && k == DayKey(today, j);
          assert j < n && k == DayKey(today, j);
        } else if k != last {
          assert forall j: nat :: j < n - 1 ==> k != DayKey(today, j);
        }
      }
    }
  }

  /** Each step adds a key that is not there yet. */
  lemma NextKeyFresh(today: CalendarDate, n: nat)
    requires Valid(today)
    ensures DayKey(today, n) !in EmptyDays(today, n)
  {
    EmptyDaysKeys(today, n);
    if DayKey(today, n) in EmptyDays(today, n) {
      var j: nat :| j < n && DayKey(today, n) == DayKey(today, j);
      DayKeysDistinct(today, j, n);
    }
  }

  /** `n` days give `n` keys. */
  lemma {:induction false} EmptyDaysSize(today: CalendarDate, n: nat)
    requires Valid(today)
    ensures |EmptyDays(today, n)| == n
  {
    if n > 0 {
      var m := EmptyDays(today, n - 1);
      var k := DayKey(today, n - 1);
      EmptyDaysSize(today, n - 1);
      NextKeyFresh(today, n - 1);
      assert EmptyDays(today, n) == m[k := []];
      assert k !in m;
    }
  }

  /** No day holds a time. */
  lemma {:induction false} EmptyDaysEmpty(today: CalendarDate, n: nat)
    requires Valid(today)
    ensures forall k :: k in EmptyDays(today, n) ==> EmptyDays(today, n)[k] == []
  {
    if n > 0 {
      EmptyDaysEmpty(today, n - 1);
    }
  }

  lemma EmptyDaysShape(today: CalendarDate, n: nat)
    requires Valid(today)
    ensures forall k :: k in EmptyDays(today, n) <==> exists j: nat :: j < n && k == DayKey(today, j)
    ensures |EmptyDays(today, n)| == n
    ensures forall k :: k in EmptyDays(today, n) ==> EmptyDays(today, n)[k] == []
  {
    EmptyDaysKeys(today, n);
    EmptyDaysSize(today, n);
    EmptyDaysEmpty(today, n);
  }

  /** `generateInitialSchedule`: 15 dates, today first, each with no times. */
  method GenerateInitialSchedule(today: CalendarDate) returns (s: SlotMap)
    requires Valid(today)
    ensures s == EmptyDays(today, 15)
    ensures |s| == 15 && DayKey(today, 0) in s
    ensures forall k :: k in s <==> exists j: nat :: j < 15 && k == DayKey(today, j)
    ensures forall k :: k in s ==> s[k] == []
  {
    s := map[];
    var i := 0;
    while i < 15
      invariant 0 <= i <= 15
      invariant s == EmptyDays(today, i)
    {
      s := s[DayKey(today, i) := []];
      i := i + 1;
    }
    EmptyDaysShape(today, 15);
  }

  /**
   * `toggleSlot(date, time)`: removes every copy of `time` from the date's list when it is
   * there and appends it otherwise; every other date keeps its list.
   */
  function Toggle(s: SlotMap, date: string, time: string): (r: SlotMap)
    ensures r.Keys == s.Keys + {date}
    ensures forall k :: k in s && k != date ==> r[k] == s[k]
    ensures time in Slots.TimesOn(s, date) ==> r[date] == Without(Slots.TimesOn(s, date), time)
    ensures time !in Slots.TimesOn(s, date) ==> r[date] == Slots.TimesOn(s, date) + [time]
  {
    var slots := Slots.TimesOn(s, date);
    s[date := if time in slots then Without(slots, time) else slots + [time]]
  }

  /** Toggling a time on and off again restores the schedule. */
  lemma ToggleTwice(s: SlotMap, date: string, time: string)
    requires date in s && time !in s[date]
    ensures Toggle(Toggle(s, date, time), date, time) == s
  {
    WithoutAppended(s[date], time);
  }

  /** Toggling keeps a list duplicate-free and keeps every time allowed when the toggled one is. */
  lemma ToggleKeepsLists(s: SlotMap, date: string, time: string)
    requires forall k :: k in s ==> NoDuplicates(s[k]) && AllAllowed(s[k])
    requires time in AllowedTimes
    ensures forall k :: k in Toggle(s, date, time) ==> NoDuplicates(Toggle(s, date, time)[k]) && AllAllowed(Toggle(s, date, time)[k])
  {
    var slots := Slots.TimesOn(s, date);
    var r := Toggle(s, date, time);
    if time in slots {
      WithoutNoDuplicates(slots, time);
      WithoutMembers(slots, time);
      forall i | 0 <= i < |r[date]| ensures r[date][i] in AllowedTimes {
        assert r[date][i] in Without(slots, time);
      }
    } else {
      forall i, j | 0 <= i < j < |r[date]| ensures r[date][i] != r[date][j] {
        if j == |slots| { assert r[date][i] == slots[i]; }
      }
      forall i | 0 <= i < |r[date]| ensures r[date][i] in AllowedTimes {
        if i < |slots| { assert r[date][i] == slots[i]; }
      }
    }
  }

  /** `isDateSelectable`: the calendar enables exactly the schedule's dates. */
  function Selectable(s: SlotMap, d: CalendarDate): (ok: bool)
    requires Valid(d)
    ensures ok <==> IsoKey(d) in s
  {
    IsoKey(d) in s
  }

  /** Day `i` of the first `n` has its key in the schedule. */
  lemma {:induction false} EmptyDaysHasDay(today: CalendarDate, n: nat, i: nat)
    requires Valid(today) && i < n
    ensures DayKey(today, i) in EmptyDays(today, n)
  {
    if i < n - 1 {
      EmptyDaysHasDay(today, n - 1, i);
    }
  }

  /** Every key of the schedule of the first `n` days is the key of one of them. */
  lemma {:induction false} EmptyDaysDayOf(today: CalendarDate, n: nat, k: string) returns (i: nat)
    requires Valid(today) && k in EmptyDays(today, n)
    ensures i < n && k == DayKey(today, i)
  {
    if k == DayKey(today, n - 1) {
      i := n - 1;
    } else {
      i := EmptyDaysDayOf(today, n - 1, k);
    }
  }

  /**
   * On a schedule of the first `n` days from today (the editor starts with 15) a valid day
   * can be picked exactly when it is one of those days.
   */
  lemma SelectableDays(today: CalendarDate, n: nat, d: CalendarDate)
    requires Valid(today) && Valid(d)
    ensures Selectable(EmptyDays(today, n), d) <==> exists i: nat :: i < n && d == AddDays(today, i)
  {
    if IsoKey(d) in EmptyDays(today, n) {
      var i := EmptyDaysDayOf(today, n, IsoKey(d));
      IsoKeyInjective(d, AddDays(today, i));
      assert i < n && d == AddDays(today, i);
      assert exists j: nat :: j < n && d == AddDays(today, j);
    }
    forall i: nat | i < n && d == AddDays(today, i)
      ensures Selectable(EmptyDays(today, n), d)
    {
      EmptyDaysHasDay(today, n, i);
    }
    assert Selectable(EmptyDays(today, n), d) ==> exists j: nat :: j < n && d == AddDays(today, j);
    assert (exists j: nat :: j < n && d == AddDays(today, j)) ==> Selectable(EmptyDays(today, n), d);
  }

  /** The editor's state: the schedule being built and the selected date key. */
  datatype Editor = Editor(schedule: SlotMap, selected: string)

  /** A click on the calendar (a day) or on the `k`-th time button. */
  datatype EditorAction = PickDate(day: CalendarDate) | PressTime(k: nat)

  function Step(e: Editor, a: EditorAction): Editor {
    match a
    case PickDate(d) =>
      if Valid(d) && Selectable(e.schedule, d) then e.(selected := IsoKey(d)) else e
    case PressTime(k) =>
      if k < |AllowedTimes| then e.(schedule := Toggle(e.schedule, e.selected, AllowedTimes[k])) else e
  }

  function RunEditor(e: Editor, actions: seq<EditorAction>): Editor
    decreases |actions|
  {
    if actions == [] then e else RunEditor(Step(e, actions[0]), actions[1..])
  }

  /** The page as it opens: the initial schedule with today selected. */
  function Opened(today: CalendarDate): Editor
    requires Valid(today)
  {
    Editor(EmptyDays(today, 15), DayKey(today, 0))
  }

  /** What every reachable editor state satisfies. */
  predicate EditorGood(e: Editor, today: CalendarDate)
    requires Valid(today)
  {
    e.schedule.Keys == EmptyDays(today, 15).Keys && e.selected in e.schedule
    && forall k :: k in e.schedule ==> NoDuplicates(e.schedule[k]) && AllAllowed(e.schedule[k])
  }

  lemma StepGood(e: Editor, a: EditorAction, today: CalendarDate)
    requires Valid(today) && EditorGood(e, today)
    ensures EditorGood(Step(e, a), today)
  {
    if a.PressTime? && a.k < |AllowedTimes| {
      ToggleKeepsLists(e.schedule, e.selected, AllowedTimes[a.k]);
    }
  }

  /**
   * Whatever the doctor clicks, the schedule keeps exactly the 15 initial dates, the
   * selected date stays one of them, and every list is duplicate-free and allowed.
   */
  lemma {:induction false} RunEditorGood(today: CalendarDate, actions: seq<EditorAction>)
    requires Valid(today)
    ensures EditorGood(RunEditor(Opened(today), actions), today)
  {
    EmptyDaysShape(today, 15);
    RunGoodFrom(Opened(today), actions, today);
  }

  lemma {:induction false} RunGoodFrom(e: Editor, actions: seq<EditorAction>, today: CalendarDate)
    requires Valid(today) && EditorGood(e, today)
    ensures EditorGood(RunEditor(e, actions), today)
    decreases |actions|
  {
    if actions != [] {
      StepGood(e, actions[0], today);
      RunGoodFrom(Step(e, actions[0]), actions[1..], today);
    }
  }

  // ---------------------------------------------------------------------------------
  // editor output against the backend check

  /** The parser reads an ISO key as the midnight starting that day. */
  ghost predicate ParsesIsoKeys(parse: string -> Option<Instant>) {
    forall d :: Valid(d) ==> parse(IsoKey(d)) == Some(Midnight(d))
  }

  lemma BeforeAsymmetric(a: CalendarDate, b: CalendarDate)
    requires Before(a, b)
    ensures !Before(b, a) && a != b
  {
  }

  /** Every schedule the editor can submit passes the check on whole days. */
  lemma EditorSubmissionAcceptedByDay(now: Instant, actions: seq<EditorAction>, parse: string -> Option<Instant>)
    requires ValidInstant(now) && ParsesIsoKeys(parse)
    ensures RequestAccepted(WholeDays, RunEditor(Opened(now.date), actions).schedule, now, parse)
  {
    var today := now.date;
    var s := RunEditor(Opened(today), actions).schedule;
    RunEditorGood(today, actions);
    EmptyDaysShape(today, 15);
    forall k | k in s ensures EntryAccepted(WholeDays, k, s[k], now, parse) {
      var i: nat :| i < 15 && k == DayKey(today, i);
      var d := AddDays(today, i);
      assert parse(k) == Some(Midnight(d));
      if i > 0 {
        AddDaysIncreasing(today, 0, i);
        BeforeAsymmetric(today, d);
      }
      AddDaysIncreasing(today, i, 15);
      BeforeAsymmetric(d, AddDays(today, 15));
    }
  }

  /**
   * The check as written refuses every schedule the editor can submit once the day has
   * begun: today's key is always present and reads as midnight, which is before now.
   */
  lemma EditorSubmissionRefusedAsWritten(now: Instant, actions: seq<EditorAction>, parse: string -> Option<Instant>)
    requires ValidInstant(now) && ParsesIsoKeys(parse) && now.msOfDay > 0
    ensures !RequestAccepted(ExactInstant, RunEditor(Opened(now.date), actions).schedule, now, parse)
  {
    var today := now.date;
    var s := RunEditor(Opened(today), actions).schedule;
    RunEditorGood(today, actions);
    var k := DayKey(today, 0);
    EmptyDaysShape(today, 15);
    assert k in s;
    assert parse(k) == Some(Midnight(today));
    assert InstantBefore(Midnight(today), now);
  }
}
