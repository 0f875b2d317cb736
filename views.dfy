/**
 * The patient's two appointment pages: `slotDateFormat` (identical on both pages), the
 * unpaid/paid split of the appointment list, and the buttons each unpaid item offers.
 * dayjs parsing and display formatting are not modelled: the model stops at the string
 * handed to `dayjs`.
 */
module AppointmentViews {
  import opened Text
  import opened Seqs
  import opened Calendar
  import opened Records
  import Payments

  // ---------------------------------------------------------------------------------
  // slotDateFormat

  /** What `slotDateFormat` does with its input before any display formatting. */
  datatype DateInput =
    | InvalidDate                 // the 'Ngày không hợp lệ' message, for an empty input
    | Normalised(formatted: string) // the three-part `d_m_y` branch, rebuilt as `y-mm-dd`
    | Raw(text: string)           // handed to `dayjs` unchanged

  /** A one-character day or month gets a leading '0'. */
  function PadPart(part: string): (r: string)
    ensures |part| == 1 ==> r == "0" + part
    ensures |part| != 1 ==> r == part
  {
    if |part| == 1 then "0" + part else part
  }

  function SlotDateFormat(slotDate: string): (r: DateInput)
    ensures slotDate == "" <==> r == InvalidDate
    ensures r.Normalised? <==> '_' in slotDate && |Split(slotDate, '_')| == 3
    ensures r.Normalised? ==>
      var parts := Split(slotDate, '_');
      r.formatted == parts[2] + "-" + PadPart(parts[1]) + "-" + PadPart(parts[0])
    ensures r.Raw? ==> r.text == slotDate
  {
    if slotDate == "" then InvalidDate
    else if '_' in slotDate && |Split(slotDate, '_')| == 3 then
      var parts := Split(slotDate, '_');
      Normalised(parts[2] + "-" + PadPart(parts[1]) + "-" + PadPart(parts[0]))
    else Raw(slotDate)
  }

  /** A one- or two-digit rendering padded by `PadPart` is the two-character zero-padded form. */
  lemma PadPartSmall(n: nat)
    requires 1 <= n < 100
    ensures PadPart(Decimal(n)) == Pad(n, 2)
  {
    DecimalLength(n);
    PadSmall(n);
  }

  /**
   * The booking page's unpadded `D_M_YYYY` key of a date with a four-digit year comes out
   * as that date's ISO key.
   */
  lemma SlotKeyNormalised(d: CalendarDate)
    requires Valid(d) && 1000 <= d.year <= 9999
    ensures SlotDateFormat(SlotKey(d)) == Normalised(IsoKey(d))
  {
    SplitSlotKey(d);
    PadPartSmall(d.day);
    PadPartSmall(d.month);
    PadSmall(d.year);
    var k := SlotKey(d);
    assert k[|Decimal(d.day)|] == '_';
  }

  /** A string without '_' is never rebuilt. */
  lemma NoSeparatorIsRaw(s: string)
    requires s != "" && '_' !in s
    ensures SlotDateFormat(s) == Raw(s)
  {
  }

  /** A string with '_' whose separators are not exactly two falls through to the generic parse. */
  lemma WrongPartCountIsRaw(s: string)
    requires '_' in s && Count(s, '_') != 2
    ensures SlotDateFormat(s) == Raw(s)
  {
    SplitLength(s, '_');
  }

  // ---------------------------------------------------------------------------------
  // the two lists

  predicate Paid(a: Appointment) {
    a.paymentStatus == PaymentConfirmed
  }

  /** The appointments whose paid state is `paid`, in stored order. */
  function KeepPaid(appts: seq<Appointment>, paid: bool): (r: seq<Appointment>)
    ensures |r| <= |appts|
    ensures forall a :: a in r <==> a in appts && Paid(a) == paid
  {
    if appts == [] then []
    else (if Paid(appts[0]) == paid then [appts[0]] else []) + KeepPaid(appts[1..], paid)
  }

  /** The filter works item by item: it distributes over concatenation, so stored order is kept. */
  lemma {:induction false} KeepPaidConcat(a: seq<Appointment>, b: seq<Appointment>, paid: bool)
    ensures KeepPaid(a + b, paid) == KeepPaid(a, paid) + KeepPaid(b, paid)
    decreases |a|
  {
    if a == [] {
      assert a + b == b;
    } else {
      assert (a + b)[1..] == a[1..] + b;
      assert (a + b)[0] == a[0];
      KeepPaidConcat(a[1..], b, paid);
    }
  }

  /** A single appointment is kept exactly when its paid state matches. */
  lemma KeepPaidSingle(x: Appointment, paid: bool)
    ensures KeepPaid([x], paid) == if Paid(x) == paid then [x] else []
  {
    assert [x][1..] == [];
  }

  /** MyAppointments: `filter(item => item.paymentStatus !== 'confirmed').reverse()`. */
  function UnpaidNewestFirst(appts: seq<Appointment>): seq<Appointment> {
    Reverse(KeepPaid(appts, false))
  }

  /** AppointmentHistory: `filter(item => item.paymentStatus === 'confirmed').reverse()`. */
  function PaidNewestFirst(appts: seq<Appointment>): seq<Appointment> {
    Reverse(KeepPaid(appts, true))
  }

  /** The paid and unpaid halves together are the whole list, each item exactly as often. */
  lemma {:induction false} KeepPaidSplits(appts: seq<Appointment>)
    ensures multiset(KeepPaid(appts, true)) + multiset(KeepPaid(appts, false)) == multiset(appts)
  {
    if appts != [] {
      var x, rest := appts[0], appts[1..];
      KeepPaidSplits(rest);
      assert multiset(appts) == multiset{x} + multiset(rest) by {
        assert appts == [x] + rest;
      }
      assert KeepPaid(appts, true) == (if Paid(x) then [x] else []) + KeepPaid(rest, true);
      assert KeepPaid(appts, false) == (if Paid(x) then [] else [x]) + KeepPaid(rest, false);
    }
  }

  /**
   * The two pages show complementary lists: together they hold every appointment exactly
   * as often as it is stored, an item is on MyAppointments iff it is unpaid and on the
   * history iff it is paid, and the newest stored item comes first.
   */
  lemma PagesPartition(appts: seq<Appointment>)
    ensures multiset(PaidNewestFirst(appts)) + multiset(UnpaidNewestFirst(appts)) == multiset(appts)
    ensures forall a :: a in UnpaidNewestFirst(appts) <==> a in appts && !Paid(a)
    ensures forall a :: a in PaidNewestFirst(appts) <==> a in appts && Paid(a)
    ensures forall k :: 0 <= k < |UnpaidNewestFirst(appts)| ==>
      UnpaidNewestFirst(appts)[k] == KeepPaid(appts, false)[|KeepPaid(appts, false)| - 1 - k]
    ensures forall k :: 0 <= k < |PaidNewestFirst(appts)| ==>
      PaidNewestFirst(appts)[k] == KeepPaid(appts, true)[|KeepPaid(appts, true)| - 1 - k]
  {
    PagesCover(appts);
    UnpaidPage(appts);
    PaidPage(appts);
  }

  /** The two pages hold every stored appointment exactly as often as it is stored. */
  lemma PagesCover(appts: seq<Appointment>)
    ensures multiset(PaidNewestFirst(appts)) + multiset(UnpaidNewestFirst(appts)) == multiset(appts)
  {
    KeepPaidSplits(appts);
    ReverseMultiset(KeepPaid(appts, false));
    ReverseMultiset(KeepPaid(appts, true));
  }

  /** The unpaid page holds exactly the unpaid appointments, the filtered list reversed. */
  lemma UnpaidPage(appts: seq<Appointment>)
    ensures forall a :: a in UnpaidNewestFirst(appts) <==> a in appts && !Paid(a)
    ensures forall k :: 0 <= k < |UnpaidNewestFirst(appts)| ==>
      UnpaidNewestFirst(appts)[k] == KeepPaid(appts, false)[|KeepPaid(appts, false)| - 1 - k]
  {
    var kept := KeepPaid(appts, false);
    assert UnpaidNewestFirst(appts) == Reverse(kept);
    ReverseMembers(kept);
    ReverseIndices(kept);
    forall a ensures a in Reverse(kept) <==> a in appts && !Paid(a) {
      assert a in kept <==> a in appts && Paid(a) == false;
    }
  }

  /** The paid page holds exactly the paid appointments, the filtered list reversed. */
  lemma PaidPage(appts: seq<Appointment>)
    ensures forall a :: a in PaidNewestFirst(appts) <==> a in appts && Paid(a)
    ensures forall k :: 0 <= k < |PaidNewestFirst(appts)| ==>
      PaidNewestFirst(appts)[k] == KeepPaid(appts, true)[|KeepPaid(appts, true)| - 1 - k]
  {
    var kept := KeepPaid(appts, true);
    assert PaidNewestFirst(appts) == Reverse(kept);
    ReverseMembers(kept);
    ReverseIndices(kept);
    forall a ensures a in Reverse(kept) <==> a in appts && Paid(a) {
      assert a in kept <==> a in appts && Paid(a) == true;
    }
  }

  /** Reversal keeps the items, their counts, and puts item `k` from the end at `k`. */
  lemma ReverseKeeps<T>(s: seq<T>)
    ensures multiset(Reverse(s)) == multiset(s)
    ensures forall x :: x in Reverse(s) <==> x in s
    ensures forall k :: 0 <= k < |s| ==> Reverse(s)[k] == s[|s| - 1 - k]
  {
    ReverseMultiset(s);
    ReverseMembers(s);
    ReverseIndices(s);
  }

  lemma ReverseMembers<T>(s: seq<T>)
    ensures forall x :: x in Reverse(s) <==> x in s
  {
    ReverseMultiset(s);
    forall x ensures x in Reverse(s) <==> x in s {
      assert x in Reverse(s) <==> multiset(Reverse(s))[x] > 0;
    }
  }

  lemma ReverseIndices<T>(s: seq<T>)
    ensures forall k :: 0 <= k < |s| ==> Reverse(s)[k] == s[|s| - 1 - k]
  {
    forall k | 0 <= k < |s| ensures Reverse(s)[k] == s[|s| - 1 - k] {
      ReverseAt(s, k);
    }
  }

  // ---------------------------------------------------------------------------------
  // the buttons of an item

  datatype Action =
    | RequestPay        // "Xác nhận": asks for payment review
    | AwaitingReview    // the disabled "Chờ xác nhận..." button
    | PaidBadge         // the disabled "Đã thanh toán" button
    | Cancel            // "Hủy lịch hẹn"
    | CancelledBadge    // the "Đã hủy" label
    | Delete            // "Xóa"

  /** The buttons MyAppointments renders for an item, top to bottom. */
  function Actions(a: Appointment): seq<Action> {
    if a.cancelled then [CancelledBadge, Delete]
    else
      (if a.paymentStatus == PaymentNone then [RequestPay] else [])
      + (if a.paymentStatus == PaymentPending then [AwaitingReview] else [])
      + (if a.paymentStatus == PaymentConfirmed then [PaidBadge] else [])
      + (if a.paymentStatus != PaymentConfirmed then [Cancel] else [])
  }

  /**
   * Cancel is offered exactly for a live unpaid item, delete exactly for a cancelled one,
   * the payment request exactly for a live item with no payment yet (and the backend then
   * accepts it), and the wait badge exactly for a live pending item.
   */
  lemma ActionsMeaning(a: Appointment)
    ensures Cancel in Actions(a) <==> !a.cancelled && a.paymentStatus != PaymentConfirmed
    ensures Delete in Actions(a) <==> a.cancelled
    ensures RequestPay in Actions(a) <==> !a.cancelled && a.paymentStatus == PaymentNone
    ensures AwaitingReview in Actions(a) <==> !a.cancelled && a.paymentStatus == PaymentPending
    ensures RequestPay in Actions(a) ==> Payments.RequestPayment(a.paymentStatus).Some?
    ensures !(Cancel in Actions(a) && Delete in Actions(a))
  {
  }

  /** The paid badge never shows on MyAppointments, since paid items are filtered out. */
  lemma NoPaidBadgeListed(appts: seq<Appointment>, a: Appointment)
    requires a in UnpaidNewestFirst(appts)
    ensures PaidBadge !in Actions(a)
  {
    PagesPartition(appts);
  }
}
