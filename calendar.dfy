/**
 * Calendar dates and the two date-key formats the application stores:
 * `YYYY-MM-DD` (working schedules, built by `toISOString().split("T")[0]` or
 * `moment().format("YYYY-MM-DD")`) and `D_M_YYYY` (booked slots, built as
 * `${getDate()}_${getMonth() + 1}_${getFullYear()}` without zero padding).
 * `new Date()` becomes an `Instant`: a date plus milliseconds since midnight.
 */
module Calendar {
  import opened Text

  datatype CalendarDate = Date(year: int, month: int, day: int)

  predicate IsLeapYear(y: int) {
    (y % 4 == 0 && y % 100 != 0) || y % 400 == 0
  }

  function DaysInMonth(y: int, m: int): (n: int)
    requires 1 <= m <= 12
    ensures 28 <= n <= 31
  {
    if m == 2 then (if IsLeapYear(y) then 29 else 28)
    else if m == 4 || m == 6 || m == 9 || m == 11 then 30
    else 31
  }

  /** A date the Gregorian calendar has (years from 1 on). */
  predicate Valid(d: CalendarDate) {
    1 <= d.year && 1 <= d.month <= 12 && 1 <= d.day <= DaysInMonth(d.year, d.month)
  }

  /** Strict calendar order. */
  predicate Before(a: CalendarDate, b: CalendarDate) {
    a.year < b.year
    || (a.year == b.year && (a.month < b.month || (a.month == b.month && a.day < b.day)))
  }

  lemma BeforeTransitive(a: CalendarDate, b: CalendarDate, c: CalendarDate)
    requires Before(a, b) && Before(b, c)
    ensures Before(a, c)
  {
  }

  /** The day after `d`, rolling over month and year ends as `setDate(getDate() + 1)` does. */
  function NextDay(d: CalendarDate): (r: CalendarDate)
    requires Valid(d)
    ensures Valid(r) && Before(d, r)
    ensures r.year <= d.year + 1
  {
    if d.day < DaysInMonth(d.year, d.month) then d.(day := d.day + 1)
    else if d.month < 12 then Date(d.year, d.month + 1, 1)
    else Date(d.year + 1, 1, 1)
  }

  /** `d` moved `n` days forward. */
  function AddDays(d: CalendarDate, n: nat): (r: CalendarDate)
    requires Valid(d)
    ensures Valid(r)
  {
    if n == 0 then d else NextDay(AddDays(d, n - 1))
  }

  /** Moving further forward always lands on a strictly later date. */
  lemma {:induction false} AddDaysIncreasing(d: CalendarDate, i: nat, j: nat)
    requires Valid(d) && i < j
    ensures Before(AddDays(d, i), AddDays(d, j))
  {
    if j == i + 1 {
    } else {
      AddDaysIncreasing(d, i, j - 1);
      BeforeTransitive(AddDays(d, i), AddDays(d, j - 1), AddDays(d, j));
    }
  }

  lemma AddDaysDistinct(d: CalendarDate, i: nat, j: nat)
    requires Valid(d) && i != j
    ensures AddDays(d, i) != AddDays(d, j)
  {
    if i < j { AddDaysIncreasing(d, i, j); } else { AddDaysIncreasing(d, j, i); }
  }

  // ---------------------------------------------------------------------------------
  // Date keys

  /** `YYYY-MM-DD`, zero-padded. */
  function IsoKey(d: CalendarDate): string
    requires Valid(d)
  {
    Pad(d.year, 4) + "-" + Pad(d.month, 2) + "-" + Pad(d.day, 2)
  }

  /** `D_M_YYYY`, no padding. */
  function SlotKey(d: CalendarDate): string
    requires Valid(d)
  {
    Decimal(d.day) + "_" + Decimal(d.month) + "_" + Decimal(d.year)
  }

  /** A string `x-y-z` with two-character `y` and `z` determines its three parts. */
  lemma DashedParts(x1: string, y1: string, z1: string, x2: string, y2: string, z2: string)
    requires |y1| == 2 && |y2| == 2 && |z1| == 2 && |z2| == 2
    requires x1 + "-" + y1 + "-" + z1 == x2 + "-" + y2 + "-" + z2
    ensures x1 == x2 && y1 == y2 && z1 == z2
  {
    var s := x1 + "-" + y1 + "-" + z1;
    var n := |s|;
    assert |x1| == n - 6 == |x2|;
    assert x1 == s[..n - 6] == x2;
    assert y1 == s[n - 5..n - 3] == y2;
    assert z1 == s[n - 2..] == z2;
  }

  /** Distinct dates have distinct ISO keys. */
  lemma IsoKeyInjective(a: CalendarDate, b: CalendarDate)
    requires Valid(a) && Valid(b) && IsoKey(a) == IsoKey(b)
    ensures a == b
  {
    PadSmall(a.month); PadSmall(a.day); PadSmall(b.month); PadSmall(b.day);
    DashedParts(Pad(a.year, 4), Pad(a.month, 2), Pad(a.day, 2), Pad(b.year, 4), Pad(b.month, 2), Pad(b.day, 2));
    PadInjective(a.year, b.year, 4);
    PadInjective(a.month, b.month, 2);
    PadInjective(a.day, b.day, 2);
  }

  lemma NoUnderscoreInDecimal(n: nat)
    ensures '_' !in Decimal(n)
  {
    var s := Decimal(n);
    assert forall i :: 0 <= i < |s| ==> s[i] != '_' by {
      assert AllDigits(s);
    }
  }

  /** A slot key splits on '_' into its day, month and year renderings. */
  lemma SplitSlotKey(d: CalendarDate)
    requires Valid(d)
    ensures Split(SlotKey(d), '_') == [Decimal(d.day), Decimal(d.month), Decimal(d.year)]
  {
    var dd, mm, yy := Decimal(d.day), Decimal(d.month), Decimal(d.year);
    NoUnderscoreInDecimal(d.day); NoUnderscoreInDecimal(d.month); NoUnderscoreInDecimal(d.year);
    assert SlotKey(d) == dd + ['_'] + (mm + ['_'] + yy);
    SplitAtSeparator(dd, mm + ['_'] + yy, '_');
    SplitAtSeparator(mm, yy, '_');
    SplitWithoutSeparator(yy, '_');
  }

  /** Distinct dates have distinct slot keys. */
  lemma SlotKeyInjective(a: CalendarDate, b: CalendarDate)
    requires Valid(a) && Valid(b) && SlotKey(a) == SlotKey(b)
    ensures a == b
  {
    SplitSlotKey(a);
    SplitSlotKey(b);
    DecimalValueOfDecimal(a.day); DecimalValueOfDecimal(b.day);
    DecimalValueOfDecimal(a.month); DecimalValueOfDecimal(b.month);
    DecimalValueOfDecimal(a.year); DecimalValueOfDecimal(b.year);
  }

  // ---------------------------------------------------------------------------------
  // Instants

  const MsPerDay: int := 86_400_000

  /** A point in time: a date and the milliseconds elapsed since its midnight. */
  datatype Instant = Instant(date: CalendarDate, msOfDay: int)

  predicate ValidInstant(t: Instant) {
    Valid(t.date) && 0 <= t.msOfDay < MsPerDay
  }

  /** `a < b` on two `Date` objects. */
  predicate InstantBefore(a: Instant, b: Instant) {
    Before(a.date, b.date) || (a.date == b.date && a.msOfDay < b.msOfDay)
  }

  /** `t` with `setDate(getDate() + n)`: `n` days later at the same time of day. */
  function PlusDays(t: Instant, n: nat): (r: Instant)
    requires ValidInstant(t)
    ensures ValidInstant(r) && r.msOfDay == t.msOfDay
  {
    Instant(AddDays(t.date, n), t.msOfDay)
  }

  function Midnight(d: CalendarDate): Instant {
    Instant(d, 0)
  }
}
