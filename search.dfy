/** The search page: merging the by-name and by-ingredient results into one list. */
module Search {
  import opened Wrappers
  import opened Meals

  /** The merged list for by-name meals `names` and by-ingredient meals `ing`: all of
      `names`, then each meal of `ing`, in order, unless a meal already collected has
      its id. Defined by dropping the last by-ingredient meal, so that the merge loop's
      state after j steps is Merged(names, ing[..j]). */
  function Merged(names: seq<Meal>, ing: seq<Meal>): seq<Meal>
    decreases |ing|
  {
    if ing == [] then names
    else
      var acc := Merged(names, ing[..|ing| - 1]);
      var m := ing[|ing| - 1];
      if HasId(acc, m.id) then acc else acc + [m]
  }

  /** An independent reference: the meals of `ing`, in order, whose id neither occurs
      among `names` nor earlier in `ing`. */
  function FirstFresh(names: seq<Meal>, ing: seq<Meal>): seq<Meal>
    decreases |ing|
  {
    if ing == [] then []
    else
      var init, m := ing[..|ing| - 1], ing[|ing| - 1];
      FirstFresh(names, init) + (if HasId(names, m.id) || HasId(init, m.id) then [] else [m])
  }

  /** The by-name meals form an exact prefix, and at most one meal per by-ingredient
      meal is appended. */
  lemma {:induction false} MergedBounds(names: seq<Meal>, ing: seq<Meal>)
    ensures var r := Merged(names, ing);
      |names| <= |r| <= |names| + |ing| && r[..|names|] == names
    decreases |ing|
  {
    if ing != [] {
      MergedBounds(names, ing[..|ing| - 1]);
    }
  }

  /** An id occurs in the merged list exactly when it occurs in either source. */
  lemma {:induction false} MergedIds(names: seq<Meal>, ing: seq<Meal>, id: string)
    ensures HasId(Merged(names, ing), id) <==> HasId(names, id) || HasId(ing, id)
    decreases |ing|
  {
    if ing != [] {
      var init, m := ing[..|ing| - 1], ing[|ing| - 1];
      var acc := Merged(names, init);
      MergedIds(names, init, id);
      if HasId(init, id) {
        var k :| 0 <= k < |init| && init[k].id == id;
        assert ing[k] == init[k];
      }
      if HasId(ing, id) && !HasId(init, id) {
        var k :| 0 <= k < |ing| && ing[k].id == id;
        if k < |init| { assert init[k] == ing[k]; }
      }
      if !HasId(acc, m.id) {
        assert (acc + [m])[|acc|] == m;
        if HasId(acc + [m], id) && !HasId(acc, id) {
          var k :| 0 <= k < |acc| + 1 && (acc + [m])[k].id == id;
        }
        if HasId(acc, id) {
          var k :| 0 <= k < |acc| && acc[k].id == id;
          assert (acc + [m])[k] == acc[k];
        }
      }
    }
  }

  /** The merge is the by-name meals followed by the first fresh by-ingredient meals:
      a by-ingredient meal is appended if and only if its id occurs neither among the
      by-name meals nor among the by-ingredient meals before it. */
  lemma {:induction false} MergedIsNamesThenFirstFresh(names: seq<Meal>, ing: seq<Meal>)
    ensures Merged(names, ing) == names + FirstFresh(names, ing)
    decreases |ing|
  {
    if ing == [] {
      assert names + [] == names;
    } else {
      var init, m := ing[..|ing| - 1], ing[|ing| - 1];
      MergedIsNamesThenFirstFresh(names, init);
      MergedIds(names, init, m.id);
      assert names + FirstFresh(names, init) + [m] == names + (FirstFresh(names, init) + [m]);
    }
  }

  /** No appended meal repeats the id of any meal before it in the merged list. */
  lemma {:induction false} MergedAppendedAreNew(names: seq<Meal>, ing: seq<Meal>)
    ensures var r := Merged(names, ing);
      forall i, j :: |names| <= i < |r| && 0 <= j < i ==> r[i].id != r[j].id
    decreases |ing|
  {
    if ing != [] {
      var init, m := ing[..|ing| - 1], ing[|ing| - 1];
      var acc := Merged(names, init);
      MergedAppendedAreNew(names, init);
      MergedBounds(names, init);
      if !HasId(acc, m.id) {
        var r := acc + [m];
        forall i, j | |names| <= i < |r| && 0 <= j < i ensures r[i].id != r[j].id {
          if i == |acc| {
            assert r[j] == acc[j];
          } else {
            assert r[i] == acc[i] && r[j] == acc[j];
          }
        }
      }
    }
  }

  /** The merged list is empty exactly when both sources are. */
  lemma MergedEmpty(names: seq<Meal>, ing: seq<Meal>)
    ensures Merged(names, ing) == [] <==> names == [] && ing == []
  {
    MergedIsNamesThenFirstFresh(names, ing);
    if names == [] && ing != [] {
      MergedIds(names, ing, ing[0].id);
      assert HasId(ing, ing[0].id);
    }
  }

  /** `results.find(x => x.idMeal === id)`, read as a truth value: a linear scan. */
  method Find(results: seq<Meal>, id: string) returns (found: bool)
    ensures found <==> HasId(results, id)
  {
    found := false;
    var k := 0;
    while k < |results| && !found
      invariant 0 <= k <= |results|
      invariant found <==> exists i :: 0 <= i < k && results[i].id == id
    {
      found := results[k].id == id;
      k := k + 1;
    }
  }

  /** The merge block of doSearch: push every by-name meal, then every by-ingredient
      meal whose id the list does not hold yet. */
  method Merge(byName: Option<seq<Meal>>, byIng: Option<seq<Meal>>) returns (results: seq<Meal>)
    ensures results == Merged(MealsOf(byName), MealsOf(byIng))
  {
    var names := MealsOf(byName);
    results := [];
    if byName.Some? {
      results := results + byName.value;
    }
    assert results == Merged(names, []);
    if byIng.Some? {
      var ing := byIng.value;
      for j := 0 to |ing|
        invariant results == Merged(names, ing[..j])
      {
        assert ing[..j + 1][..j] == ing[..j];
        var dup := Find(results, ing[j].id);
        if !dup {
          results := results + [ing[j]];
        }
      }
      assert ing[..|ing|] == ing;
    }
  }

  /** What doSearch shows: the prompt for an empty query, the failure message, the
      "no results" notice, or the merged meals. */
  datatype SearchView = Prompt | LoadFailed | NoResults | Results(meals: seq<Meal>)

  /** doSearch(q) given the two responses: an empty query shows the prompt without a
      request; a failed request shows the failure; otherwise the merged list decides
      between "no results" and the result cards. */
  method DoSearch(q: string, byName: Fetch<Meal>, byIng: Fetch<Meal>) returns (view: SearchView)
    ensures view == Prompt <==> q == []
    ensures q != [] ==> (view == LoadFailed <==> byName.NetworkError? || byIng.NetworkError?)
    ensures view == NoResults <==>
      q != [] && byName.Body? && byIng.Body? && MealsOf(byName.meals) == [] && MealsOf(byIng.meals) == []
    ensures view.Results? ==>
      byName.Body? && byIng.Body? && view.meals != []
      && view.meals == Merged(MealsOf(byName.meals), MealsOf(byIng.meals))
  {
    if q == [] {
      return Prompt;
    }
    if byName.NetworkError? || byIng.NetworkError? {
      return LoadFailed;
    }
    var results := Merge(byName.meals, byIng.meals);
    MergedEmpty(MealsOf(byName.meals), MealsOf(byIng.meals));
    if |results| == 0 {
      view := NoResults;
    } else {
      view := Results(results);
    }
  }

  function MealWithId(id: string): Meal {
    Meal(id, None, None, None, None, None)
  }

  /** Merging [1, 2] by name with [2, 3] by ingredient gives [1, 2, 3]. */
  lemma MergeExample()
    ensures Merged([MealWithId("1"), MealWithId("2")], [MealWithId("2"), MealWithId("3")])
      == [MealWithId("1"), MealWithId("2"), MealWithId("3")]
  {
    var names := [MealWithId("1"), MealWithId("2")];
    var ing := [MealWithId("2"), MealWithId("3")];
    var two := [MealWithId("2")];
    assert ing[..1] == two && two[..0] == [];
    assert HasId(names, "2") by { assert names[1].id == "2"; }
    assert Merged(names, two) == names;
    assert !HasId(names, "3");
  }
}
