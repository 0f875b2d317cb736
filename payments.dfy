/**
 * The appointment payment state machine: the patient asks for payment (`none` or
 * `pending` become `pending`, `confirmed` refuses) and the admin confirms from any state.
 */
module Payments {
  import opened Wrappers
  import opened Records

  /** The patient's request; None when the payment is already confirmed. */
  function RequestPayment(p: PaymentStatus): (r: Option<PaymentStatus>)
    ensures r.None? <==> p == PaymentConfirmed
    ensures r.Some? ==> r.value == PaymentPending
  {
    if p == PaymentConfirmed then None else Some(PaymentPending)
  }

  /** How far along the payment is. */
  function Rank(p: PaymentStatus): nat {
    match p
    case PaymentNone => 0
    case PaymentPending => 1
    case PaymentConfirmed => 2
  }

  datatype PaymentEvent = PatientRequest | AdminConfirm

  /** One event; a refused request leaves the status as it was. */
  function Apply(p: PaymentStatus, e: PaymentEvent): (r: PaymentStatus)
    ensures Rank(p) <= Rank(r)
    ensures e == AdminConfirm ==> r == PaymentConfirmed
    ensures e == PatientRequest ==> (r == PaymentConfirmed <==> p == PaymentConfirmed)
  {
    match e
    case PatientRequest => RequestPayment(p).GetOr(p)
    case AdminConfirm => PaymentConfirmed
  }

  /** A sequence of events applied in order. */
  function Run(p: PaymentStatus, es: seq<PaymentEvent>): PaymentStatus
    decreases |es|
  {
    if es == [] then p else Run(Apply(p, es[0]), es[1..])
  }

  /** The status never moves backwards. */
  lemma {:induction false} RunMonotone(p: PaymentStatus, es: seq<PaymentEvent>)
    ensures Rank(p) <= Rank(Run(p, es))
    decreases |es|
  {
    if es != [] {
      RunMonotone(Apply(p, es[0]), es[1..]);
    }
  }

  /** A payment ends confirmed exactly when it started confirmed or the admin confirmed it. */
  lemma {:induction false} RunConfirmed(p: PaymentStatus, es: seq<PaymentEvent>)
    ensures Run(p, es) == PaymentConfirmed <==> p == PaymentConfirmed || AdminConfirm in es
    decreases |es|
  {
    if es != [] {
      RunConfirmed(Apply(p, es[0]), es[1..]);
      assert es == [es[0]] + es[1..];
    }
  }

  /** Confirming twice is the same as confirming once. */
  lemma ConfirmIdempotent(p: PaymentStatus)
    ensures Apply(Apply(p, AdminConfirm), AdminConfirm) == Apply(p, AdminConfirm)
  {
  }
}
