/** The payload both listing pages attach to each link into the detail view. */
module ListLinks {
  import opened Meals
  import opened MealDetailPage

  /** `meals.map((meal) => meal.id)`. */
  function MealIdList(meals: seq<MealSummary>): (ids: seq<string>)
    ensures |ids| == |meals|
    ensures forall k :: 0 <= k < |meals| ==> ids[k] == meals[k].id
  {
    seq(|meals|, k requires 0 <= k < |meals| => meals[k].id)
  }

  /** The `state` of the link rendered at each position: the whole id list, the
      link's own position, and the listing's origin label. */
  function LinkStates(meals: seq<MealSummary>, origin: string): (r: seq<DetailState>)
    ensures |r| == |meals|
    ensures forall k :: 0 <= k < |r| ==>
      r[k].index == Some(k) && r[k].origin == Some(origin) && r[k].list.Some? &&
      |r[k].list.value| == |meals| && r[k].list.value[k] == meals[k].id
  {
    var ids := MealIdList(meals);
    seq(|meals|, k requires 0 <= k < |meals| => DetailState(Some(ids), Some(k), Some(origin)))
  }

  /** Following the link at position `k` binds a context whose current id is that link's
      meal, whose list is every displayed id, and whose origin is the listing's. */
  lemma LinkBindsItsMeal(meals: seq<MealSummary>, origin: string, k: nat)
    requires k < |meals|
    ensures var bound := Bind(Some(LinkStates(meals, origin)[k]));
      bound.Some? && bound.value.index == k && bound.value.origin == Some(origin) &&
      |bound.value.list| == |meals| &&
      forall j :: 0 <= j < |meals| ==> bound.value.list[j] == meals[j].id
  {
    assert LinkStates(meals, origin)[k] == DetailState(Some(MealIdList(meals)), Some(k), Some(origin));
  }
}
