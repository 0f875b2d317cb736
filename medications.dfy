/**
 * Medication lists as the backend and both diagnosis editors treat them: the bill total,
 * the dosage/duration completeness check, and the field edits.
 */
module Medications {
  import opened Wrappers
  import opened Seqs
  import opened Records

  /** `med.price || 0`: a missing (or NaN) price counts as zero. */
  function PriceOrZero(m: Medication): int {
    m.price.GetOr(0)
  }

  /** `meds.reduce((sum, med) => sum + (med.price || 0), 0)`, folded from the left. */
  function Total(meds: seq<Medication>): int {
    if meds == [] then 0 else Total(meds[..|meds| - 1]) + PriceOrZero(meds[|meds| - 1])
  }

  lemma TotalAppend(meds: seq<Medication>, m: Medication)
    ensures Total(meds + [m]) == Total(meds) + PriceOrZero(m)
  {
    assert (meds + [m])[..|meds|] == meds;
  }

  /** The total of a concatenation is the sum of the totals. */
  lemma {:induction false} TotalConcat(a: seq<Medication>, b: seq<Medication>)
    ensures Total(a + b) == Total(a) + Total(b)
    decreases |b|
  {
    if b == [] {
      assert a + b == a;
    } else {
      var c := b[..|b| - 1];
      assert a + b == (a + c) + [b[|b| - 1]];
      TotalConcat(a, c);
      TotalAppend(a + c, b[|b| - 1]);
    }
  }

  lemma TotalSplit(meds: seq<Medication>, i: nat)
    requires i < |meds|
    ensures Total(meds) == Total(meds[..i]) + PriceOrZero(meds[i]) + Total(meds[i + 1..])
  {
    assert meds == meds[..i] + [meds[i]] + meds[i + 1..];
    TotalConcat(meds[..i] + [meds[i]], meds[i + 1..]);
    TotalAppend(meds[..i], meds[i]);
  }

  /** Removing entry `i` takes exactly its price off the total. */
  lemma TotalRemoveAt(meds: seq<Medication>, i: nat)
    requires i < |meds|
    ensures Total(RemoveAt(meds, i)) == Total(meds) - PriceOrZero(meds[i])
  {
    TotalSplit(meds, i);
    TotalConcat(meds[..i], meds[i + 1..]);
  }

  /** Replacing entry `i` swaps its price for the new one in the total. */
  lemma TotalReplaceAt(meds: seq<Medication>, i: nat, m: Medication)
    requires i < |meds|
    ensures Total(ReplaceAt(meds, i, m)) == Total(meds) - PriceOrZero(meds[i]) + PriceOrZero(m)
  {
    var r := ReplaceAt(meds, i, m);
    TotalSplit(meds, i);
    TotalSplit(r, i);
    assert r[..i] == meds[..i] && r[i + 1..] == meds[i + 1..];
  }

  /** With no negative prices the total is never negative. */
  lemma {:induction false} TotalNonNegative(meds: seq<Medication>)
    requires forall k :: 0 <= k < |meds| ==> PriceOrZero(meds[k]) >= 0
    ensures Total(meds) >= 0
    decreases |meds|
  {
    if meds != [] {
      TotalNonNegative(meds[..|meds| - 1]);
    }
  }

  /** `reduce((sum, med) => sum + med.price, 0)` without the `|| 0`: None (NaN) once a price is missing. */
  function SumPrices(meds: seq<Medication>): (r: Option<int>)
    ensures r.Some? <==> forall k :: 0 <= k < |meds| ==> meds[k].price.Some?
  {
    if meds == [] then Some(0)
    else
      var init := SumPrices(meds[..|meds| - 1]);
      var last := meds[|meds| - 1];
      if init.Some? && last.price.Some? then Some(init.value + last.price.value) else None
  }

  /** When every item carries a price both ways of summing agree. */
  lemma {:induction false} SumPricesIsTotal(meds: seq<Medication>)
    requires forall k :: 0 <= k < |meds| ==> meds[k].price.Some?
    ensures SumPrices(meds) == Some(Total(meds))
    decreases |meds|
  {
    if meds != [] {
      SumPricesIsTotal(meds[..|meds| - 1]);
    }
  }

  // ---------------------------------------------------------------------------------
  // dosage and duration

  /** `med.dosage && med.duration`. */
  predicate Complete(m: Medication) {
    m.dosage != "" && m.duration != ""
  }

  predicate AllComplete(meds: seq<Medication>) {
    forall k :: 0 <= k < |meds| ==> Complete(meds[k])
  }

  /**
   * The `for (const med of medications) if (!med.dosage || !med.duration) return` loops of
   * the backend handlers and the create page: the first incomplete entry, or None.
   */
  method FirstIncomplete(meds: seq<Medication>) returns (k: Option<nat>)
    ensures k.None? <==> AllComplete(meds)
    ensures k.Some? ==> k.value < |meds| && !Complete(meds[k.value])
    ensures k.Some? ==> forall j :: 0 <= j < k.value ==> Complete(meds[j])
  {
    var i := 0;
    while i < |meds|
      invariant 0 <= i <= |meds|
      invariant forall j :: 0 <= j < i ==> Complete(meds[j])
    {
      if meds[i].dosage == "" || meds[i].duration == "" {
        return Some(i);
      }
      i := i + 1;
    }
    return None;
  }

  // ---------------------------------------------------------------------------------
  // field edits

  /** `{ ...med, [field]: value }` for the four editable fields. */
  datatype MedEdit = SetName(name: string) | SetDosage(dosage: string)
                   | SetDuration(duration: string) | SetPrice(price: Option<int>)

  function Edit(m: Medication, e: MedEdit): (r: Medication)
    ensures e.SetName? ==> r == m.(name := e.name)
    ensures e.SetDosage? ==> r == m.(dosage := e.dosage)
    ensures e.SetDuration? ==> r == m.(duration := e.duration)
    ensures e.SetPrice? ==> r == m.(price := e.price)
  {
    match e
    case SetName(v) => m.(name := v)
    case SetDosage(v) => m.(dosage := v)
    case SetDuration(v) => m.(duration := v)
    case SetPrice(v) => m.(price := v)
  }

  /** The list with one field of entry `i` changed: same length, every other entry as it was. */
  function ChangeAt(meds: seq<Medication>, i: nat, e: MedEdit): (r: seq<Medication>)
    requires i < |meds|
    ensures |r| == |meds| && r[i] == Edit(meds[i], e)
    ensures forall k :: 0 <= k < |meds| && k != i ==> r[k] == meds[k]
  {
    ReplaceAt(meds, i, Edit(meds[i], e))
  }

  /** Editing a dosage or duration leaves the total unchanged. */
  lemma ChangeTextKeepsTotal(meds: seq<Medication>, i: nat, e: MedEdit)
    requires i < |meds| && !e.SetPrice?
    ensures Total(ChangeAt(meds, i, e)) == Total(meds)
  {
    TotalReplaceAt(meds, i, Edit(meds[i], e));
  }

  /**
   * The create page's `newMeds[index][field] = value`: the entry object is shared with the
   * page state, so the change happens in place.
   */
  method ChangeInPlace(meds: array<Medication>, i: nat, e: MedEdit)
    requires i < meds.Length
    modifies meds
    ensures meds[..] == ChangeAt(old(meds[..]), i, e)
  {
    meds[i] := Edit(meds[i], e);
  }
}
