/** The recipe page: the meal's 20 numbered ingredient / measure fields compacted into
    the ingredient list it shows. */
module Recipe {
  import opened Wrappers
  import opened JsString
  import opened Meals

  /** Numbered field i of a meal: (strIngredient<i>, strMeasure<i>), each possibly
      null or undefined. */
  type Slot = (Option<string>, Option<string>)

  /** The page reads fields 1 through 20. */
  const SlotCount: nat := 20

  /** A looked-up meal together with its numbered fields, slot k holding field k + 1. */
  datatype MealDetail = MealDetail(meal: Meal, slots: seq<Slot>)

  /** Slot k of a meal; a field the record does not have reads as undefined. */
  function SlotAt(slots: seq<Slot>, k: nat): Slot {
    if k < |slots| then slots[k] else (None, None)
  }

  /** `ing && ing.trim()`: the ingredient is present, non-empty and not blank. */
  predicate Kept(slot: Slot) {
    slot.0.Some? && slot.0.value != "" && Trim(slot.0.value) != ""
  }

  /** `measure ? measure.trim() : ''`. */
  function MeasureText(measure: Option<string>): string {
    if measure.Some? && measure.value != "" then Trim(measure.value) else ""
  }

  /** The entry pushed for a kept slot, `${measure} ${ingredient}`.trim(); it is
      trimmed and not empty. */
  function Entry(slot: Slot): (e: string)
    requires Kept(slot)
    ensures IsTrimmed(e) && e != ""
  {
    var m, ing := MeasureText(slot.1), Trim(slot.0.value);
    EntryShape(m, ing);
    Trim(m + " " + ing)
  }

  /** An entry ends with the trimmed ingredient; it is just that ingredient when the
      measure is absent or blank, and otherwise the trimmed measure, one space and the
      trimmed ingredient. */
  lemma EntryParts(slot: Slot)
    requires Kept(slot)
    ensures var e, ing := Entry(slot), Trim(slot.0.value);
      |ing| <= |e| && e[|e| - |ing|..] == ing
      && (MeasureText(slot.1) == "" ==> e == ing)
      && (MeasureText(slot.1) != "" ==> e == MeasureText(slot.1) + " " + ing)
  {
    EntryShape(MeasureText(slot.1), Trim(slot.0.value));
  }

  lemma EntryShape(m: string, ing: string)
    requires IsTrimmed(m) && IsTrimmed(ing) && ing != ""
    ensures m == "" ==> Trim(m + " " + ing) == ing
    ensures m != "" ==> Trim(m + " " + ing) == m + " " + ing
  {
    if m == "" {
      assert m + " " + ing == " " + ing;
      TrimSkipsBlank(" ", ing);
    } else {
      TrimTrimmed(m + " " + ing);
    }
  }

  /** The ingredient list built from the first n slots, in slot order. Defined by
      dropping the last slot, so that the loop's state after slot n is Compacted(slots, n). */
  function Compacted(slots: seq<Slot>, n: nat): seq<string> {
    if n == 0 then []
    else
      var slot := SlotAt(slots, n - 1);
      Compacted(slots, n - 1) + (if Kept(slot) then [Entry(slot)] else [])
  }

  predicate Ascending(ks: seq<nat>) {
    forall j, l :: 0 <= j < l < |ks| ==> ks[j] < ks[l]
  }

  /** The indices of the kept slots among the first n, ascending. */
  function KeptSlots(slots: seq<Slot>, n: nat): seq<nat> {
    if n == 0 then []
    else KeptSlots(slots, n - 1) + (if Kept(SlotAt(slots, n - 1)) then [n - 1] else [])
  }

  /** The compacted list has one entry per kept slot, and so at most one per slot. */
  lemma {:induction false} CompactedLength(slots: seq<Slot>, n: nat)
    ensures |Compacted(slots, n)| == |KeptSlots(slots, n)| <= n
  {
    if n > 0 {
      CompactedLength(slots, n - 1);
    }
  }

  /** The kept slots among the first n lie below n and ascend. */
  lemma {:induction false} KeptSlotsAscend(slots: seq<Slot>, n: nat)
    ensures forall j :: 0 <= j < |KeptSlots(slots, n)| ==> KeptSlots(slots, n)[j] < n
    ensures Ascending(KeptSlots(slots, n))
  {
    if n > 0 {
      KeptSlotsAscend(slots, n - 1);
      var ks0, ks := KeptSlots(slots, n - 1), KeptSlots(slots, n);
      if Kept(SlotAt(slots, n - 1)) {
        assert ks == ks0 + [n - 1];
      } else {
        assert ks == ks0;
      }
    }
  }

  /** A slot below n is among the kept slots exactly when its ingredient is not blank. */
  lemma {:induction false} KeptSlotsExact(slots: seq<Slot>, n: nat)
    ensures forall k :: 0 <= k < n ==> (Kept(SlotAt(slots, k)) <==> k in KeptSlots(slots, n))
  {
    if n > 0 {
      KeptSlotsExact(slots, n - 1);
      KeptSlotsAscend(slots, n - 1);
      var ks0, ks := KeptSlots(slots, n - 1), KeptSlots(slots, n);
      var last := SlotAt(slots, n - 1);
      assert n - 1 !in ks0;
      if Kept(last) {
        assert ks == ks0 + [n - 1];
        assert forall k :: k in ks <==> k in ks0 || k == n - 1;
      } else {
        assert ks == ks0;
      }
    }
  }

  /** Entry j of the compacted list is the entry of the j-th kept slot, so the list
      follows slot order. */
  lemma {:induction false} CompactedFollowsSlots(slots: seq<Slot>, n: nat)
    ensures |Compacted(slots, n)| == |KeptSlots(slots, n)|
    ensures forall j :: 0 <= j < |KeptSlots(slots, n)| ==>
      Kept(SlotAt(slots, KeptSlots(slots, n)[j]))
      && Compacted(slots, n)[j] == Entry(SlotAt(slots, KeptSlots(slots, n)[j]))
  {
    CompactedLength(slots, n);
    if n > 0 {
      CompactedFollowsSlots(slots, n - 1);
      var r0, ks0 := Compacted(slots, n - 1), KeptSlots(slots, n - 1);
      var r, ks := Compacted(slots, n), KeptSlots(slots, n);
      var slot := SlotAt(slots, n - 1);
      if Kept(slot) {
        assert r == r0 + [Entry(slot)] && ks == ks0 + [n - 1];
      } else {
        assert r == r0 && ks == ks0;
      }
      forall j | 0 <= j < |ks| ensures Kept(SlotAt(slots, ks[j])) && r[j] == Entry(SlotAt(slots, ks[j])) {
        if j < |ks0| {
          assert ks[j] == ks0[j] && r[j] == r0[j];
        } else {
          assert ks[j] == n - 1 && r[j] == Entry(slot);
        }
      }
    }
  }

  /** Every entry of the compacted list is trimmed and not empty. */
  lemma CompactedEntriesTrimmed(slots: seq<Slot>, n: nat)
    ensures forall j :: 0 <= j < |Compacted(slots, n)| ==>
      IsTrimmed(Compacted(slots, n)[j]) && Compacted(slots, n)[j] != ""
  {
    CompactedFollowsSlots(slots, n);
  }

  /** The ingredient loop of initRecipe: for i = 1..20, push the entry of field i when
      its ingredient is not blank. */
  method Compact(slots: seq<Slot>) returns (ingredients: seq<string>)
    ensures ingredients == Compacted(slots, SlotCount)
    ensures |ingredients| <= SlotCount
  {
    ingredients := [];
    for i := 1 to SlotCount + 1
      invariant ingredients == Compacted(slots, i - 1)
    {
      var slot := SlotAt(slots, i - 1);
      if slot.0.Some? && slot.0.value != "" && Trim(slot.0.value) != "" {
        var measure := if slot.1.Some? && slot.1.value != "" then Trim(slot.1.value) else "";
        ingredients := ingredients + [Trim(measure + " " + Trim(slot.0.value))];
      }
    }
    CompactedLength(slots, SlotCount);
  }

  /** What the recipe page shows. */
  datatype RecipeView = NoSelection | LoadFailed | NotFound | Shown(meal: Meal, ingredients: seq<string>)

  /** initRecipe given the `id` query parameter and the lookup's response: no id shows
      the "no recipe selected" notice without a request; a failed request shows the
      failure; a null or empty `meals` shows "not found"; otherwise the first meal is
      shown with its compacted ingredient list. */
  method LoadRecipe(id: Option<string>, res: Fetch<MealDetail>) returns (view: RecipeView)
    ensures id.None? || id.value == "" <==> view == NoSelection
    ensures view == LoadFailed <==> id.Some? && id.value != "" && res.NetworkError?
    ensures view == NotFound <==> id.Some? && id.value != "" && res.Body? && MealsOf(res.meals) == []
    ensures view.Shown? ==>
      res.Body? && MealsOf(res.meals) != []
      && view.meal == res.meals.value[0].meal
      && view.ingredients == Compacted(res.meals.value[0].slots, SlotCount)
  {
    if id.None? || id.value == "" {
      return NoSelection;
    }
    if res.NetworkError? {
      return LoadFailed;
    }
    if res.meals.None? || res.meals.value == [] {
      return NotFound;
    }
    var detail := res.meals.value[0];
    var ingredients := Compact(detail.slots);
    view := Shown(detail.meal, ingredients);
  }

  /** A kept ingredient with no measure becomes an entry holding just the ingredient. */
  lemma IngredientAlone(ing: string)
    requires IsTrimmed(ing) && ing != ""
    ensures Kept((Some(ing), None)) && Entry((Some(ing), None)) == ing
  {
    TrimTrimmed(ing);
    EntryParts((Some(ing), None));
  }

  /** Fields past the end of the record read as undefined and add nothing. */
  lemma {:induction false} CompactedPastEnd(slots: seq<Slot>, n: nat)
    requires |slots| <= n
    ensures Compacted(slots, n) == Compacted(slots, |slots|)
  {
    if n > |slots| {
      CompactedPastEnd(slots, n - 1);
      assert !Kept(SlotAt(slots, n - 1));
    }
  }

  /** Two ingredients around an empty field, with no measures (Salt, "", Pepper) and
      fields 4..20 undefined, compact over the page's 20 fields to exactly the two
      ingredients, in order. */
  lemma CompactSkipsEmptyField(first: string, second: string)
    requires IsTrimmed(first) && first != "" && IsTrimmed(second) && second != ""
    ensures Compacted([(Some(first), None), (Some(""), None), (Some(second), None)], SlotCount)
      == [first, second]
  {
    var a, blank, b := (Some(first), None), (Some(""), None), (Some(second), None);
    var slots := [a, blank, b];
    IngredientAlone(first);
    IngredientAlone(second);
    assert !Kept(blank);
    assert Compacted(slots, 1) == [first];
    assert Compacted(slots, 2) == [first];
    assert Compacted(slots, 3) == [first, second];
    CompactedPastEnd(slots, SlotCount);
  }
}
