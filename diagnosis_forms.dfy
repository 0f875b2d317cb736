/**
 * The two client-side diagnosis editors: the create page (medications picked from a fixed
 * catalogue, removed by name) and the detail page (free-form rows added blank and removed
 * by index, the text lists, and the guard before an update is sent).
 */
module DiagnosisForms {
  import opened Wrappers
  import opened Seqs
  import opened Text
  import opened Records
  import opened Medications

  datatype CatalogueItem = CatalogueItem(name: string, price: int)

  /** `specialMedications`. */
  const Catalogue: seq<CatalogueItem> := [
    CatalogueItem("Paracetamol", 40000),
    CatalogueItem("Amoxicillin", 60000),
    CatalogueItem("Ibuprofen", 40000),
    CatalogueItem("Cefuroxime", 50000),
    CatalogueItem("Azithromycin", 55000),
    CatalogueItem("Metronidazole", 70000),
    CatalogueItem("Prednisolone", 80000)
  ]

  function FindIn(items: seq<CatalogueItem>, name: string): (r: Option<CatalogueItem>)
    ensures r.Some? ==> r.value in items && r.value.name == name
    ensures r.None? <==> forall k :: 0 <= k < |items| ==> items[k].name != name
  {
    if items == [] then None
    else if items[0].name == name then Some(items[0])
    else FindIn(items[1..], name)
  }

  /** `specialMedications.find(m => m.name === selectedMed)`. */
  function Find(name: string): (r: Option<CatalogueItem>)
    ensures r.Some? ==> r.value in Catalogue && r.value.name == name
    ensures r.None? <==> forall k :: 0 <= k < |Catalogue| ==> Catalogue[k].name != name
  {
    FindIn(Catalogue, name)
  }

  predicate HasName(meds: seq<Medication>, name: string) {
    exists k :: 0 <= k < |meds| && meds[k].name == name
  }

  predicate NamesUnique(meds: seq<Medication>) {
    forall i, j :: 0 <= i < j < |meds| ==> meds[i].name != meds[j].name
  }

  /** Every entry is a catalogue medication at its catalogue price. */
  predicate FromCatalogue(meds: seq<Medication>) {
    forall k :: 0 <= k < |meds| ==> meds[k].price.Some? && CatalogueItem(meds[k].name, meds[k].price.value) in Catalogue
  }

  /** The form state the add button works on: the list and the selector's value. */
  datatype Picker = Picker(meds: seq<Medication>, selected: string)

  /**
   * `handleAddMedication`: appends the selected catalogue medication with empty dosage and
   * duration unless it is unknown or already listed; the selector is cleared in every case.
   */
  function AddSelected(p: Picker): (r: Picker)
    ensures r.selected == ""
    ensures |r.meds| == |p.meds| + 1 <==> Find(p.selected).Some? && !HasName(p.meds, p.selected)
    ensures |r.meds| != |p.meds| + 1 ==> r.meds == p.meds
    ensures |r.meds| == |p.meds| + 1 ==>
              r.meds[..|p.meds|] == p.meds
              && r.meds[|p.meds|] == Medication(p.selected, "", "", Some(Find(p.selected).value.price))
  {
    var found := Find(p.selected);
    if found.Some? && !HasName(p.meds, found.value.name) then
      Picker(p.meds + [Medication(found.value.name, "", "", Some(found.value.price))], "")
    else
      Picker(p.meds, "")
  }

  /** Adding keeps the names unique and every entry a catalogue medication. */
  lemma AddSelectedKeepsShape(p: Picker)
    requires NamesUnique(p.meds) && FromCatalogue(p.meds)
    ensures NamesUnique(AddSelected(p).meds) && FromCatalogue(AddSelected(p).meds)
  {
    var r := AddSelected(p).meds;
    if |r| == |p.meds| + 1 {
      forall i, j | 0 <= i < j < |r| ensures r[i].name != r[j].name {
        if j == |p.meds| {
          assert r[i] == p.meds[i];
        } else {
          assert r[i] == p.meds[i] && r[j] == p.meds[j];
        }
      }
      forall k | 0 <= k < |r| ensures r[k].price.Some? && CatalogueItem(r[k].name, r[k].price.value) in Catalogue {
        if k < |p.meds| {
          assert r[k] == p.meds[k];
        }
      }
    }
  }

  /** Adding the same medication a second time changes nothing more. */
  lemma AddSelectedTwice(meds: seq<Medication>, name: string)
    ensures AddSelected(Picker(AddSelected(Picker(meds, name)).meds, name)).meds == AddSelected(Picker(meds, name)).meds
  {
    var r := AddSelected(Picker(meds, name)).meds;
    if |r| == |meds| + 1 {
      assert r[|meds|].name == name;
      assert HasName(r, name);
    }
  }

  /** Adding raises the displayed total by the catalogue price, or leaves it. */
  lemma AddSelectedTotal(p: Picker)
    ensures Total(AddSelected(p).meds) == Total(p.meds) + (if |AddSelected(p).meds| == |p.meds| + 1 then Find(p.selected).value.price else 0)
  {
    var r := AddSelected(p).meds;
    if |r| == |p.meds| + 1 {
      assert r == p.meds + [r[|p.meds|]];
      TotalAppend(p.meds, r[|p.meds|]);
    }
  }

  /** `handleRemoveMedication(name)`: `filter(m => m.name !== name)`. */
  function RemoveByName(meds: seq<Medication>, name: string): (r: seq<Medication>)
    ensures |r| <= |meds|
    ensures !HasName(r, name)
    ensures forall m :: m in r <==> m in meds && m.name != name
  {
    if meds == [] then []
    else if meds[0].name == name then RemoveByName(meds[1..], name)
    else [meds[0]] + RemoveByName(meds[1..], name)
  }

  /** The filter works entry by entry: it distributes over concatenation, so the kept entries stay in order. */
  lemma {:induction false} RemoveByNameConcat(a: seq<Medication>, b: seq<Medication>, name: string)
    ensures RemoveByName(a + b, name) == RemoveByName(a, name) + RemoveByName(b, name)
    decreases |a|
  {
    if a == [] {
      assert a + b == b;
    } else {
      assert (a + b)[1..] == a[1..] + b;
      RemoveByNameConcat(a[1..], b, name);
    }
  }

  /** A single entry is dropped exactly when it carries the name. */
  lemma RemoveByNameSingle(m: Medication, name: string)
    ensures RemoveByName([m], name) == if m.name == name then [] else [m]
  {
  }

  /** Removing a name that is not listed keeps the list as it is. */
  lemma {:induction false} RemoveAbsentName(meds: seq<Medication>, name: string)
    requires !HasName(meds, name)
    ensures RemoveByName(meds, name) == meds
  {
    if meds != [] {
      assert !HasName(meds[1..], name) by {
        forall k | 0 <= k < |meds[1..]| ensures meds[1..][k].name != name {
          assert meds[1..][k] == meds[k + 1];
        }
      }
      RemoveAbsentName(meds[1..], name);
      assert meds == [meds[0]] + meds[1..];
    }
  }

  /** Picking a medication that is not listed and removing it by name restores the list. */
  lemma RemoveWhatWasAdded(p: Picker)
    requires !HasName(p.meds, p.selected)
    ensures RemoveByName(AddSelected(p).meds, p.selected) == p.meds
  {
    var r := AddSelected(p).meds;
    RemoveAbsentName(p.meds, p.selected);
    if |r| == |p.meds| + 1 {
      assert r == p.meds + [r[|p.meds|]];
      RemoveByNameAppend(p.meds, r[|p.meds|], p.selected);
    }
  }

  lemma {:induction false} RemoveByNameAppend(meds: seq<Medication>, m: Medication, name: string)
    requires m.name == name
    ensures RemoveByName(meds + [m], name) == RemoveByName(meds, name)
    decreases |meds|
  {
    if meds == [] {
      assert [m][1..] == [];
    } else {
      assert (meds + [m])[1..] == meds[1..] + [m];
      RemoveByNameAppend(meds[1..], m, name);
    }
  }

  // ---------------------------------------------------------------------------------
  // detail page

  /** The blank row `{ name: '', dosage: '', duration: '', price: 0 }`. */
  const Blank: Medication := Medication("", "", "", Some(0))

  /** `meds.push(blank)` on a copy: one more row, priced zero, so the total is unchanged. */
  lemma AppendBlankTotal(meds: seq<Medication>)
    ensures Total(meds + [Blank]) == Total(meds)
  {
    TotalAppend(meds, Blank);
  }

  /** Removing by index the row just appended gives back the list (rows and text-list items alike). */
  lemma RemoveAppended<T>(s: seq<T>, x: T)
    ensures RemoveAt(s + [x], |s|) == s
  {
    assert (s + [x])[..|s|] == s;
  }

  /**
   * `handleUpdate`'s guard: the update is sent only when the diagnosis text has a character
   * that `trim` keeps.
   */
  function UpdateAllowed(diagnosisText: string): (ok: bool)
    ensures ok <==> exists i :: 0 <= i < |diagnosisText| && !IsJsSpace(diagnosisText[i])
  {
    Trim(diagnosisText) != ""
  }
}
