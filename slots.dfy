/**
 * Bookkeeping on a doctor's `slots_booked`: a date key (`D_M_YYYY`) mapped to the list of
 * booked times. Booking appends a time; the cancellations and the delete filter it out,
 * and only some of them drop a date key whose list has become empty.
 */
module Slots {
  import opened Seqs
  import opened Records

  /** Time `t` is booked on date key `d`. */
  predicate Booked(m: SlotMap, d: string, t: string) {
    d in m && t in m[d]
  }

  /** The list under `d`, or the empty list when there is none. */
  function TimesOn(m: SlotMap, d: string): (ts: seq<string>)
    ensures d !in m ==> ts == []
    ensures forall t :: t in ts <==> Booked(m, d, t)
  {
    if d in m then m[d] else []
  }

  /** Every list is free of repeated times. */
  predicate ListsDuplicateFree(m: SlotMap) {
    forall d :: d in m ==> NoDuplicates(m[d])
  }

  /** No date key holds an empty list. */
  predicate NoEmptyLists(m: SlotMap) {
    forall d :: d in m ==> m[d] != []
  }

  /**
   * Booking: creates the list under `d` when it is absent and appends `t`; the other date
   * keys keep their lists.
   */
  function AddTime(m: SlotMap, d: string, t: string): (r: SlotMap)
    ensures r.Keys == m.Keys + {d}
    ensures r[d] == TimesOn(m, d) + [t]
    ensures forall k :: k in m && k != d ==> r[k] == m[k]
  {
    m[d := TimesOn(m, d) + [t]]
  }

  /** After booking, exactly the old pairs and (`d`, `t`) are booked. */
  lemma AddTimeBooked(m: SlotMap, d: string, t: string)
    ensures forall d', t' :: Booked(AddTime(m, d, t), d', t') <==> Booked(m, d', t') || (d' == d && t' == t)
  {
  }

  /** A time not yet booked on `d` keeps every list duplicate-free when it is appended. */
  lemma AddTimeDuplicateFree(m: SlotMap, d: string, t: string)
    requires ListsDuplicateFree(m) && !Booked(m, d, t)
    ensures ListsDuplicateFree(AddTime(m, d, t))
  {
    var r := AddTime(m, d, t);
    var before := TimesOn(m, d);
    assert NoDuplicates(before);
    assert t !in before;
    forall i, j | 0 <= i < j < |r[d]| ensures r[d][i] != r[d][j] {
      if j == |before| {
        assert r[d][i] == before[i];
      }
    }
  }

  /**
   * The patient and admin cancellation: `m[d] = m[d].filter(e => e != t)`. The key stays
   * even when its list becomes empty. A missing key is the caller's error path.
   */
  function ReleaseKeepKey(m: SlotMap, d: string, t: string): (r: SlotMap)
    requires d in m
    ensures r.Keys == m.Keys
    ensures r[d] == Without(m[d], t)
    ensures forall k :: k in m && k != d ==> r[k] == m[k]
  {
    m[d := Without(m[d], t)]
  }

  /**
   * The doctor-side cancellation and the delete: filter `t` out of `m[d]` when the key is
   * present and drop the key once its list is empty; an absent key changes nothing.
   */
  function ReleaseDropEmpty(m: SlotMap, d: string, t: string): (r: SlotMap)
    ensures d !in m ==> r == m
    ensures d in m && Without(m[d], t) == [] ==> r == m - {d}
    ensures d in m && Without(m[d], t) != [] ==> r == m[d := Without(m[d], t)]
  {
    if d !in m then m
    else
      var rest := Without(m[d], t);
      if rest == [] then m - {d} else m[d := rest]
  }

  /** After either release, exactly the old pairs other than (`d`, `t`) are booked. */
  lemma ReleaseKeepKeyBooked(m: SlotMap, d: string, t: string)
    requires d in m
    ensures forall d', t' :: Booked(ReleaseKeepKey(m, d, t), d', t') <==> Booked(m, d', t') && !(d' == d && t' == t)
  {
    WithoutMembers(m[d], t);
  }

  lemma ReleaseDropEmptyBooked(m: SlotMap, d: string, t: string)
    ensures forall d', t' :: Booked(ReleaseDropEmpty(m, d, t), d', t') <==> Booked(m, d', t') && !(d' == d && t' == t)
  {
    if d in m {
      WithoutMembers(m[d], t);
    }
  }

  /** Dropping emptied keys keeps the map free of empty lists; keeping them does not. */
  lemma ReleaseDropEmptyNoEmpty(m: SlotMap, d: string, t: string)
    requires NoEmptyLists(m)
    ensures NoEmptyLists(ReleaseDropEmpty(m, d, t))
  {
  }

  /** Releasing the only time of a date while keeping the key leaves that date's key with an empty list. */
  lemma ReleaseKeepKeyLeavesEmptyList(m: SlotMap, d: string, t: string)
    requires d in m && m[d] == [t]
    ensures ReleaseKeepKey(m, d, t) == m[d := []]
    ensures !NoEmptyLists(ReleaseKeepKey(m, d, t))
  {
    assert Without([t], t) == [];
  }

  /** Filtering keeps every list duplicate-free. */
  lemma ReleaseDuplicateFree(m: SlotMap, d: string, t: string)
    requires ListsDuplicateFree(m)
    ensures d in m ==> ListsDuplicateFree(ReleaseKeepKey(m, d, t))
    ensures ListsDuplicateFree(ReleaseDropEmpty(m, d, t))
  {
    if d in m {
      WithoutNoDuplicates(m[d], t);
    }
  }

  /** Booking a free time and releasing it again restores the list under the key. */
  lemma {:induction false} BookThenReleaseKeepKey(m: SlotMap, d: string, t: string)
    requires d in m && !Booked(m, d, t)
    ensures ReleaseKeepKey(AddTime(m, d, t), d, t) == m
  {
    WithoutAppended(m[d], t);
  }

  /** With no empty lists to begin with, booking then releasing with key removal restores the map. */
  lemma {:induction false} BookThenReleaseDropEmpty(m: SlotMap, d: string, t: string)
    requires NoEmptyLists(m) && !Booked(m, d, t)
    ensures ReleaseDropEmpty(AddTime(m, d, t), d, t) == m
  {
    WithoutAppended(TimesOn(m, d), t);
  }
}
