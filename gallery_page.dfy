/** The gallery view: a category selection, the merge of the per-category result sets
    into one list keyed by meal id, and the links into the detail view. */
module GalleryPage {
  import opened Meals
  import opened MealApi
  import opened MealDetailPage
  import opened ListLinks

  // ----- The merge ----------------------------------------------------------------

  /** A JavaScript `Map<string, MealSummary>`: its keys in first-insertion order and
      the value under each key. */
  datatype MergeState = MergeState(keys: seq<string>, values: map<string, MealSummary>)

  /** No key twice, and exactly the keys of the order have a value. */
  ghost predicate WellFormed(m: MergeState) {
    (forall i, j :: 0 <= i < j < |m.keys| ==> m.keys[i] != m.keys[j]) &&
    (forall id :: id in m.values <==> id in m.keys)
  }

  const Empty := MergeState([], map[])

  /** `uniqueMeals.set(meal.id, meal)`: an id not yet present is appended to the key order;
      a present one keeps its place and takes the new value. */
  function Put(m: MergeState, meal: MealSummary): (r: MergeState)
    ensures meal.id in r.values && r.values[meal.id] == meal
  {
    MergeState(if meal.id in m.values then m.keys else m.keys + [meal.id], m.values[meal.id := meal])
  }

  /** The meals of every result set, set after set, each in its own order. */
  function Flatten(results: seq<seq<MealSummary>>): seq<MealSummary>
    decreases |results|
  {
    if results == [] then [] else Flatten(results[..|results| - 1]) + results[|results| - 1]
  }

  /** The map after `set` has been called on each meal in turn. */
  function MergeAll(meals: seq<MealSummary>): (r: MergeState)
    decreases |meals|
  {
    if meals == [] then Empty else Put(MergeAll(meals[..|meals| - 1]), meals[|meals| - 1])
  }

  /** Each `set` adds at most one key, so the map never has more keys than meals were set. */
  lemma {:induction false} MergeAllKeysBound(meals: seq<MealSummary>)
    ensures |MergeAll(meals).keys| <= |meals|
    decreases |meals|
  {
    if meals != [] {
      MergeAllKeysBound(meals[..|meals| - 1]);
    }
  }

  /** Each `set` keeps the map well formed. */
  lemma {:induction false} MergeAllWellFormed(meals: seq<MealSummary>)
    ensures WellFormed(MergeAll(meals))
    decreases |meals|
  {
    if meals != [] {
      MergeAllWellFormed(meals[..|meals| - 1]);
    }
  }

  /** `Array.from(uniqueMeals.values())`: the values in key order. */
  function Values(m: MergeState): seq<MealSummary>
    requires WellFormed(m)
  {
    seq(|m.keys|, k requires 0 <= k < |m.keys| => m.values[m.keys[k]])
  }

  /** The list the gallery shows for a batch of settled result sets. */
  function Merged(results: seq<seq<MealSummary>>): (r: seq<MealSummary>)
    ensures |r| <= |Flatten(results)|
  {
    MergeAllWellFormed(Flatten(results));
    MergeAllKeysBound(Flatten(results));
    Values(MergeAll(Flatten(results)))
  }

  /** The position where `id` first occurs in `ids`; `|ids|` when it does not. */
  function FirstIndex(ids: seq<string>, id: string): (k: nat)
    ensures k <= |ids|
    ensures k < |ids| <==> id in ids
    ensures k < |ids| ==> ids[k] == id
    decreases |ids|
  {
    if ids == [] then 0 else if ids[0] == id then 0 else 1 + FirstIndex(ids[1..], id)
  }

  /** No earlier position holds the id. */
  lemma {:induction false} FirstIndexIsFirst(ids: seq<string>, id: string)
    ensures forall j :: 0 <= j < FirstIndex(ids, id) ==> ids[j] != id
    decreases |ids|
  {
    if ids != [] && ids[0] != id {
      FirstIndexIsFirst(ids[1..], id);
      assert forall j :: 1 <= j < |ids| ==> ids[j] == ids[1..][j - 1];
    }
  }

  /** The last meal of `meals` with the given id, if any. */
  function LastWith(meals: seq<MealSummary>, id: string): (r: Option<MealSummary>)
    ensures r.Some? ==> r.value.id == id && r.value in meals
    decreases |meals|
  {
    if meals == [] then None
    else if meals[|meals| - 1].id == id then Some(meals[|meals| - 1])
    else LastWith(meals[..|meals| - 1], id)
  }

  lemma MealIdListSnoc(meals: seq<MealSummary>)
    requires meals != []
    ensures MealIdList(meals) == MealIdList(meals[..|meals| - 1]) + [meals[|meals| - 1].id]
  {
  }

  lemma {:induction false} FirstIndexSnoc(ids: seq<string>, x: string, id: string)
    ensures id in ids ==> FirstIndex(ids + [x], id) == FirstIndex(ids, id)
    ensures id !in ids && id == x ==> FirstIndex(ids + [x], id) == |ids|
    decreases |ids|
  {
    if ids != [] {
      assert (ids + [x])[1..] == ids[1..] + [x];
      FirstIndexSnoc(ids[1..], x, id);
    }
  }

  /** The merged ids are exactly the ids of the input, each once. */
  lemma {:induction false} MergeKeepsEveryId(meals: seq<MealSummary>)
    ensures forall id :: id in MergeAll(meals).keys <==> id in MealIdList(meals)
    decreases |meals|
  {
    if meals != [] {
      MergeKeepsEveryId(meals[..|meals| - 1]);
      MergeAllWellFormed(meals[..|meals| - 1]);
      MealIdListSnoc(meals);
    }
  }

  /** `keys` lists ids in the order of their first position in `ids`. */
  ghost predicate ByFirstSight(keys: seq<string>, ids: seq<string>) {
    forall i, j :: 0 <= i < j < |keys| ==> FirstIndex(ids, keys[i]) < FirstIndex(ids, keys[j])
  }

  /** One `set` call on an order that lists ids by first sight keeps it so. */
  lemma OrderAfterPut(before: seq<string>, initIds: seq<string>, x: string)
    requires ByFirstSight(before, initIds)
    requires forall id :: id in before <==> id in initIds
    ensures ByFirstSight(if x in initIds then before else before + [x], initIds + [x])
  {
    var keys := if x in initIds then before else before + [x];
    forall i, j | 0 <= i < j < |keys| ensures FirstIndex(initIds + [x], keys[i]) < FirstIndex(initIds + [x], keys[j]) {
      assert keys[i] == before[i];
      FirstIndexSnoc(initIds, x, keys[i]);
      FirstIndexSnoc(initIds, x, keys[j]);
    }
  }

  /** The key order is the order in which ids are first seen. */
  lemma {:induction false} MergeOrdersByFirstSight(meals: seq<MealSummary>)
    ensures ByFirstSight(MergeAll(meals).keys, MealIdList(meals))
    decreases |meals|
  {
    if meals != [] {
      var init, last := meals[..|meals| - 1], meals[|meals| - 1];
      var before := MergeAll(init);
      MergeOrdersByFirstSight(init);
      MergeKeepsEveryId(init);
      MergeAllWellFormed(init);
      MealIdListSnoc(meals);
      assert last.id in before.values <==> last.id in MealIdList(init);
      OrderAfterPut(before.keys, MealIdList(init), last.id);
    }
  }

  /** The value under an id is its last occurrence: a later result set overrides an earlier one. */
  lemma {:induction false} MergeKeepsLastOccurrence(meals: seq<MealSummary>)
    ensures var m := MergeAll(meals);
      forall id :: (id in m.values <==> LastWith(meals, id).Some?) &&
                   (id in m.values ==> m.values[id] == LastWith(meals, id).value)
    decreases |meals|
  {
    if meals != [] {
      MergeKeepsLastOccurrence(meals[..|meals| - 1]);
    }
  }

  /** The merged list holds no id twice, holds every id of the result sets, lists them by
      first sight, and shows the last occurrence of each. */
  lemma MergedMeaning(results: seq<seq<MealSummary>>)
    ensures var merged, all := Merged(results), Flatten(results);
      (forall i, j :: 0 <= i < j < |merged| ==> merged[i].id != merged[j].id) &&
      (forall id :: id in MealIdList(merged) <==> id in MealIdList(all)) &&
      (forall i, j :: 0 <= i < j < |merged| ==>
         FirstIndex(MealIdList(all), merged[i].id) < FirstIndex(MealIdList(all), merged[j].id)) &&
      (forall k :: 0 <= k < |merged| ==> Some(merged[k]) == LastWith(all, merged[k].id))
  {
    var all := Flatten(results);
    var m := MergeAll(all);
    MergeAllWellFormed(all);
    var merged := Values(m);
    assert MealIdList(merged) == m.keys by {
      MergeKeepsLastOccurrence(all);
      assert forall k :: 0 <= k < |merged| ==> merged[k].id == m.keys[k];
    }
    assert forall id :: id in MealIdList(merged) <==> id in MealIdList(all) by {
      MergeKeepsEveryId(all);
    }
    assert ByFirstSight(m.keys, MealIdList(all)) by {
      MergeOrdersByFirstSight(all);
    }
    assert forall k :: 0 <= k < |merged| ==> Some(merged[k]) == LastWith(all, merged[k].id) by {
      MergeKeepsLastOccurrence(all);
    }
  }

  lemma MergeAllSnoc(meals: seq<MealSummary>, meal: MealSummary)
    ensures MergeAll(meals + [meal]) == Put(MergeAll(meals), meal)
  {
    assert (meals + [meal])[..|meals|] == meals;
  }

  lemma FlattenSnoc(results: seq<seq<MealSummary>>, r: int)
    requires 0 <= r < |results|
    ensures Flatten(results[..r + 1]) == Flatten(results[..r]) + results[r]
  {
    assert results[..r + 1][..r] == results[..r];
  }

  /** The nested `forEach` loops of the batch handler: each meal of each result set is
      `set` into a map under its id, and the map's values are read out in key order. */
  method MergeResults(results: seq<seq<MealSummary>>) returns (meals: seq<MealSummary>)
    ensures meals == Merged(results)
  {
    var keys: seq<string> := [];
    var uniqueMeals: map<string, MealSummary> := map[];
    for r := 0 to |results|
      invariant MergeState(keys, uniqueMeals) == MergeAll(Flatten(results[..r]))
    {
      var categoryMeals := results[r];
      ghost var seen := Flatten(results[..r]);
      assert seen + categoryMeals[..0] == seen;
      for k := 0 to |categoryMeals|
        invariant MergeState(keys, uniqueMeals) == MergeAll(seen + categoryMeals[..k])
      {
        var meal := categoryMeals[k];
        assert seen + categoryMeals[..k + 1] == (seen + categoryMeals[..k]) + [meal];
        MergeAllSnoc(seen + categoryMeals[..k], meal);
        if meal.id !in uniqueMeals {
          keys := keys + [meal.id];
        }
        uniqueMeals := uniqueMeals[meal.id := meal];
      }
      assert categoryMeals[..|categoryMeals|] == categoryMeals;
      FlattenSnoc(results, r);
    }
    assert results[..|results|] == results;
    MergeAllWellFormed(Flatten(results));
    meals := seq(|keys|, k requires 0 <= k < |keys| && keys[k] in uniqueMeals => uniqueMeals[keys[k]]);
  }

  /** Two categories share meal "2"; the vegan copy, merged last, is the one shown, in the
      place where "2" was first seen. */
  lemma LaterCategoryWins(fishPie: MealSummary, paella: MealSummary, dal: MealSummary)
    requires fishPie.id == "1" && paella.id == "2" && dal.id == "3"
    ensures var seafood := [fishPie, paella.(category := Some("Seafood"))];
            var vegan := [paella.(category := Some("Vegan")), dal];
            Merged([seafood, vegan]) == [fishPie, paella.(category := Some("Vegan")), dal]
  {
    var a, b, b2, c := fishPie, paella.(category := Some("Seafood")), paella.(category := Some("Vegan")), dal;
    var seafood, vegan := [a, b], [b2, c];
    var results := [seafood, vegan];
    assert Flatten(results) == [a, b, b2, c] by {
      FlattenSnoc(results, 0);
      FlattenSnoc(results, 1);
      assert results[..0] == [] && results[..2] == results;
    }
    assert MergeAll([a]) == MergeState(["1"], map["1" := a]) by {
      MergeAllSnoc([], a);
      assert [] + [a] == [a];
    }
    assert MergeAll([a, b]) == MergeState(["1", "2"], map["1" := a, "2" := b]) by {
      MergeAllSnoc([a], b);
      assert [a] + [b] == [a, b];
    }
    assert MergeAll([a, b, b2]) == MergeState(["1", "2"], map["1" := a, "2" := b2]) by {
      MergeAllSnoc([a, b], b2);
      assert [a, b] + [b2] == [a, b, b2];
    }
    var m4 := MergeState(["1", "2", "3"], map["1" := a, "2" := b2, "3" := c]);
    assert MergeAll([a, b, b2, c]) == m4 by {
      MergeAllSnoc([a, b, b2], c);
      assert [a, b, b2] + [c] == [a, b, b2, c];
    }
  }

  // ----- The batch of category requests ----------------------------------------------

  /** `Promise.all` over the selected categories: every result set in selection order, or
      a rejection as soon as one request fails. */
  function FetchAll(categories: seq<string>, filter: string -> Settled<MealsBody>): (r: Settled<seq<seq<MealSummary>>>)
    ensures r.Rejected? <==> exists k :: 0 <= k < |categories| && FilterMealsByCategory(categories[k], filter).Rejected?
    ensures r.Fulfilled? ==> |r.value| == |categories|
    ensures r.Fulfilled? ==>
      forall k :: 0 <= k < |categories| ==> r.value[k] == FilterMealsByCategory(categories[k], filter).value
    decreases |categories|
  {
    if categories == [] then Fulfilled([])
    else
      var init := categories[..|categories| - 1];
      var last := FilterMealsByCategory(categories[|categories| - 1], filter);
      match FetchAll(init, filter)
      case Rejected =>
        assert forall k :: 0 <= k < |init| ==> init[k] == categories[k];
        Rejected
      case Fulfilled(results) =>
        if last.Rejected? then Rejected else Fulfilled(results + [last.value])
  }

  // ----- Category selection ---------------------------------------------------------

  /** `current.filter((value) => value !== category)`. */
  function Without(current: seq<string>, category: string): (r: seq<string>)
    ensures |r| <= |current|
    ensures category !in r
    decreases |current|
  {
    if current == [] then []
    else Without(current[..|current| - 1], category)
         + (if current[|current| - 1] == category then [] else [current[|current| - 1]])
  }

  /** Removing a category keeps every other one, as often as it occurred. */
  lemma {:induction false} WithoutKeepsOthers(current: seq<string>, category: string)
    ensures forall c :: c != category ==> multiset(Without(current, category))[c] == multiset(current)[c]
    decreases |current|
  {
    if current != [] {
      var init := current[..|current| - 1];
      var last := current[|current| - 1];
      WithoutKeepsOthers(init, category);
      assert current == init + [last];
      assert multiset(current) == multiset(init) + multiset{last};
    }
  }

  /** Removal works element by element and keeps the order of what remains:
      filtering a concatenation filters each part, in order. */
  lemma {:induction false} WithoutAppend(a: seq<string>, b: seq<string>, category: string)
    ensures Without(a + b, category) == Without(a, category) + Without(b, category)
    decreases |b|
  {
    if b == [] {
      assert a + b == a;
    } else {
      var c, init, last := a + b, b[..|b| - 1], b[|b| - 1];
      assert c[..|c| - 1] == a + init && c[|c| - 1] == last;
      WithoutAppend(a, init, category);
      var front, middle := Without(a, category), Without(init, category);
      if last == category {
        assert Without(c, category) == front + middle;
      } else {
        assert Without(c, category) == (front + middle) + [last];
        assert (front + middle) + [last] == front + (middle + [last]);
      }
    }
  }

  /** Removing an absent category changes nothing. */
  lemma {:induction false} WithoutAbsent(current: seq<string>, category: string)
    requires category !in current
    ensures Without(current, category) == current
    decreases |current|
  {
    if current != [] {
      WithoutAbsent(current[..|current| - 1], category);
    }
  }

  /** `handleCategoryToggle`'s new selection: remove the category if present, append it if not. */
  function Toggled(current: seq<string>, category: string): (r: seq<string>)
    ensures category in r <==> category !in current
    ensures category !in current ==> r == current + [category]
    ensures category in current ==> r == Without(current, category)
    ensures forall c :: c != category ==> multiset(r)[c] == multiset(current)[c]
  {
    if category in current then
      WithoutKeepsOthers(current, category);
      Without(current, category)
    else current + [category]
  }

  /** Toggling an absent category twice restores the selection. */
  lemma ToggleTwiceRestores(current: seq<string>, category: string)
    requires category !in current
    ensures Toggled(Toggled(current, category), category) == current
  {
    var added := current + [category];
    assert added[..|added| - 1] == current;
    WithoutAbsent(current, category);
  }

  // ----- The view -----------------------------------------------------------------

  datatype GalleryError = CategoriesFailed | MealsFailed

  /** The gallery's state cells. */
  class GalleryView {
    var categories: seq<MealCategory>
    var selectedCategories: seq<string>
    var meals: seq<MealSummary>
    var error: Option<GalleryError>

    constructor ()
      ensures categories == [] && selectedCategories == [] && meals == [] && error == None
    {
      categories, selectedCategories, meals, error := [], [], [], None;
    }

    /** The category list on mount: stored, and its first entry becomes the whole
        selection; a failure only sets the error. */
    method LoadCategories(response: Settled<seq<MealCategory>>)
      modifies this`categories, this`selectedCategories, this`error
      ensures response.Rejected? ==>
        error == Some(CategoriesFailed) && categories == old(categories) && selectedCategories == old(selectedCategories)
      ensures response.Fulfilled? ==> categories == response.value && error == old(error)
      ensures response.Fulfilled? && response.value != [] ==> selectedCategories == [response.value[0].strCategory]
      ensures response.Fulfilled? && response.value == [] ==> selectedCategories == old(selectedCategories)
    {
      match response {
        case Rejected =>
          error := Some(CategoriesFailed);
        case Fulfilled(loaded) =>
          categories := loaded;
          if loaded != [] {
            selectedCategories := [loaded[0].strCategory];
          }
      }
    }

    method HandleCategoryToggle(category: string)
      modifies this`selectedCategories
      ensures selectedCategories == Toggled(old(selectedCategories), category)
    {
      selectedCategories := Toggled(selectedCategories, category);
    }

    /** The meals effect, once its batch has settled: nothing is fetched for an empty
        selection; otherwise the results are merged, or on any failure the list is
        cleared and the error set. */
    method RefreshMeals(filter: string -> Settled<MealsBody>)
      modifies this`meals, this`error
      ensures selectedCategories == [] ==> meals == [] && error == old(error)
      ensures selectedCategories != [] && FetchAll(selectedCategories, filter).Rejected? ==>
        meals == [] && error == Some(MealsFailed)
      ensures selectedCategories != [] && FetchAll(selectedCategories, filter).Fulfilled? ==>
        meals == Merged(FetchAll(selectedCategories, filter).value) && error == None
    {
      if selectedCategories == [] {
        meals := [];
        return;
      }
      error := None;
      match FetchAll(selectedCategories, filter) {
        case Rejected =>
          error := Some(MealsFailed);
          meals := [];
        case Fulfilled(results) =>
          meals := MergeResults(results);
      }
    }

    /** The `state` of each rendered gallery link. */
    function Links(): (r: seq<DetailState>)
      reads this
      ensures |r| == |meals|
      ensures forall k :: 0 <= k < |r| ==>
        r[k].index == Some(k) && r[k].origin == Some("gallery") &&
        r[k].list.Some? && |r[k].list.value| == |r| && r[k].list.value[k] == meals[k].id
    {
      LinkStates(meals, "gallery")
    }
  }
}
