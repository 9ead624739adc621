/** The catalog client's data shaping: raw records become summaries and details,
    and the outcome of each request is post-processed. The HTTP requests themselves
    are parameters: a function from the request's parameter to the settled response. */
module MealApi {
  import opened Meals
  import opened Text

  /** The fixed number of ingredient/measure slots a catalog record carries. */
  const SlotCount := 20

  /** A request that either failed in transport (`Rejected`) or completed. */
  datatype Settled<+T> = Rejected | Fulfilled(value: T)

  /** The `meals` field of a catalog response: `null` or a list of records. */
  type MealsBody = Option<seq<RawMeal>>

  // ----- Normalization -----------------------------------------------------------

  /** `toMealSummary`: the record's own category wins, then the caller's fallback,
      then null; an empty-string category is a value and is kept. */
  function ToMealSummary(meal: RawMeal, fallbackCategory: Option<string>): (m: MealSummary)
    ensures m.id == meal.idMeal && m.name == meal.strMeal && m.thumbnail == meal.strMealThumb
    ensures meal.strCategory.Some? ==> m.category == meal.strCategory
    ensures meal.strCategory.None? ==> m.category == fallbackCategory
    ensures m.area == meal.strArea
  {
    MealSummary(
      meal.idMeal,
      meal.strMeal,
      if meal.strCategory.Some? then meal.strCategory else fallbackCategory,
      meal.strArea,
      meal.strMealThumb)
  }

  /** Field `strIngredient<i>` or `strMeasure<i>` of a record; absent outside the slots held. */
  function Slot(slots: seq<Option<string>>, i: int): Option<string> {
    if 1 <= i <= |slots| then slots[i - 1] else None
  }

  /** `name && name.trim()`: slot `i` holds an ingredient name that is not blank. */
  predicate HasName(meal: RawMeal, i: int) {
    Slot(meal.strIngredient, i).Some? && Trim(Slot(meal.strIngredient, i).value) != []
  }

  /** The entry slot `i` contributes: the trimmed name, and the trimmed measure or `''`. */
  function SlotIngredient(meal: RawMeal, i: int): Ingredient
    requires HasName(meal, i)
  {
    var measure := Slot(meal.strMeasure, i);
    Ingredient(Trim(Slot(meal.strIngredient, i).value), if measure.Some? then Trim(measure.value) else [])
  }

  /** The entries of slots 1..n, in slot order. */
  function IngredientsUpTo(meal: RawMeal, n: nat): (r: seq<Ingredient>)
    ensures |r| <= n
  {
    if n == 0 then []
    else IngredientsUpTo(meal, n - 1) + (if HasName(meal, n) then [SlotIngredient(meal, n)] else [])
  }

  /** The number of slots among 1..n that hold a non-blank name. */
  function NamedSlotsUpTo(meal: RawMeal, n: nat): nat {
    if n == 0 then 0 else NamedSlotsUpTo(meal, n - 1) + (if HasName(meal, n) then 1 else 0)
  }

  /** `buildIngredients`: the bounded loop over slots 1..20. */
  method BuildIngredients(meal: RawMeal) returns (ingredients: seq<Ingredient>)
    ensures ingredients == IngredientsUpTo(meal, SlotCount)
  {
    ingredients := [];
    for i := 1 to SlotCount + 1
      invariant ingredients == IngredientsUpTo(meal, i - 1)
    {
      var name := Slot(meal.strIngredient, i);
      var measure := Slot(meal.strMeasure, i);
      if name.Some? && Trim(name.value) != [] {
        ingredients := ingredients + [Ingredient(Trim(name.value), if measure.Some? then Trim(measure.value) else [])];
      }
    }
  }

  /** Exactly the slots with a non-blank name contribute, one entry each. */
  lemma {:induction false} IngredientCount(meal: RawMeal, n: nat)
    ensures |IngredientsUpTo(meal, n)| == NamedSlotsUpTo(meal, n)
  {
    if n > 0 {
      IngredientCount(meal, n - 1);
    }
  }

  /** Every entry has a non-blank trimmed name and a trimmed measure. */
  lemma {:induction false} IngredientsAreClean(meal: RawMeal, n: nat)
    ensures forall k :: 0 <= k < |IngredientsUpTo(meal, n)| ==>
      var entry := IngredientsUpTo(meal, n)[k];
      entry.ingredient != [] && Trimmed(entry.ingredient) && Trimmed(entry.measure)
  {
    if n > 0 {
      IngredientsAreClean(meal, n - 1);
      var before := IngredientsUpTo(meal, n - 1);
      assert IngredientsUpTo(meal, n) == before + (if HasName(meal, n) then [SlotIngredient(meal, n)] else []);
    }
  }

  /** Later slots only append: the entries of slots 1..m open the entries of slots 1..n. */
  lemma {:induction false} IngredientsGrow(meal: RawMeal, m: nat, n: nat)
    requires m <= n
    ensures |IngredientsUpTo(meal, m)| <= |IngredientsUpTo(meal, n)|
    ensures IngredientsUpTo(meal, n)[..|IngredientsUpTo(meal, m)|] == IngredientsUpTo(meal, m)
    decreases n
  {
    if m < n {
      IngredientsGrow(meal, m, n - 1);
      var before := IngredientsUpTo(meal, n - 1);
      var added := if HasName(meal, n) then [SlotIngredient(meal, n)] else [];
      assert IngredientsUpTo(meal, n) == before + added;
      assert (before + added)[..|IngredientsUpTo(meal, m)|] == before[..|IngredientsUpTo(meal, m)|];
    }
  }

  /** The entry of a named slot `i` sits after the entries of the named slots before it:
      the list is in increasing slot order and blank slots leave no gap. */
  lemma IngredientOfSlot(meal: RawMeal, n: nat, i: nat)
    requires 1 <= i <= n && HasName(meal, i)
    ensures NamedSlotsUpTo(meal, i - 1) < |IngredientsUpTo(meal, n)|
    ensures IngredientsUpTo(meal, n)[NamedSlotsUpTo(meal, i - 1)] == SlotIngredient(meal, i)
  {
    var before, upTo := IngredientsUpTo(meal, i - 1), IngredientsUpTo(meal, i);
    IngredientCount(meal, i - 1);
    assert upTo == before + [SlotIngredient(meal, i)];
    IngredientsGrow(meal, i, n);
    var all := IngredientsUpTo(meal, n);
    assert all[..|upTo|][|before|] == all[|before|];
  }

  /** `toMealDetail`'s tag list: split on commas, trim, drop the empty pieces. */
  function Tags(strTags: Option<string>): (tags: seq<string>)
    ensures forall k :: 0 <= k < |tags| ==> tags[k] != [] && Trimmed(tags[k]) && ',' !in tags[k]
  {
    match strTags
    case None => []
    case Some(t) =>
      if t == [] then []
      else
        CleanPiecesAvoids(Split(t, ','), ',');
        CleanPieces(Split(t, ','))
  }

  /** Tags that are already clean survive a join with commas and a re-parse. */
  lemma TagsOfJoined(tags: seq<string>)
    requires forall k :: 0 <= k < |tags| ==> tags[k] != [] && Trimmed(tags[k]) && ',' !in tags[k]
    ensures Tags(Some(Join(tags, ','))) == tags
  {
    if tags != [] {
      SplitJoin(tags, ',');
      CleanPiecesOfClean(tags);
      assert Join(tags, ',') != [] by {
        if |tags| > 1 {
          assert Join(tags, ',') == tags[0] + [','] + Join(tags[1..], ',');
        }
      }
    }
  }

  /** A tag field without a comma gives its trimmed self, or nothing when blank. */
  lemma TagsWithoutComma(t: string)
    requires ',' !in t
    ensures Tags(Some(t)) == if Trim(t) == [] then [] else [Trim(t)]
  {
    SplitWithoutSeparator(t, ',');
  }

  /** `toMealDetail`: never applies a fallback category; missing instructions read as `''`. */
  function ToMealDetail(meal: RawMeal): (d: MealDetail)
    ensures d.summary == ToMealSummary(meal, None)
    ensures meal.strInstructions.None? ==> d.instructions == []
    ensures meal.strInstructions.Some? ==> d.instructions == meal.strInstructions.value
    ensures d.youtube == meal.strYoutube && d.source == meal.strSource
    ensures d.tags == Tags(meal.strTags) && d.ingredients == IngredientsUpTo(meal, SlotCount)
  {
    MealDetail(
      ToMealSummary(meal, None),
      if meal.strInstructions.Some? then meal.strInstructions.value else [],
      Tags(meal.strTags),
      meal.strYoutube,
      meal.strSource,
      IngredientsUpTo(meal, SlotCount))
  }

  // ----- Requests ----------------------------------------------------------------

  /** `response.data.meals ?? []`. */
  function MealsOf(body: MealsBody): seq<RawMeal> {
    if body.Some? then body.value else []
  }

  /** `const [meal] = response.data.meals ?? []`. */
  function FirstMeal(body: MealsBody): (r: Option<RawMeal>)
    ensures r.Some? <==> MealsOf(body) != []
    ensures r.Some? ==> r.value == MealsOf(body)[0]
  {
    if MealsOf(body) == [] then None else Some(MealsOf(body)[0])
  }

  function Summaries(meals: seq<RawMeal>, fallbackCategory: Option<string>): seq<MealSummary> {
    seq(|meals|, k requires 0 <= k < |meals| => ToMealSummary(meals[k], fallbackCategory))
  }

  /** `searchMeals`: a blank query yields `[]` without a request; otherwise the trimmed
      query is sent and every record found becomes a summary, in order. */
  function SearchMeals(query: string, search: string -> Settled<MealsBody>): (r: Settled<seq<MealSummary>>)
    ensures Blank(query) ==> r == Fulfilled([])
    ensures !Blank(query) ==> (r.Rejected? <==> search(Trim(query)).Rejected?)
    ensures !Blank(query) && r.Fulfilled? ==>
      var meals := MealsOf(search(Trim(query)).value);
      |r.value| == |meals| && forall k :: 0 <= k < |meals| ==> r.value[k] == ToMealSummary(meals[k], None)
  {
    var term := Trim(query);
    if term == [] then Fulfilled([])
    else
      match search(term)
      case Rejected => Rejected
      case Fulfilled(body) => Fulfilled(Summaries(MealsOf(body), None))
  }

  /** `filterMealsByCategory`: the queried category is every record's fallback, so
      each summary has a category. */
  function FilterMealsByCategory(category: string, filter: string -> Settled<MealsBody>): (r: Settled<seq<MealSummary>>)
    ensures r.Rejected? <==> filter(category).Rejected?
    ensures r.Fulfilled? ==>
      var meals := MealsOf(filter(category).value);
      |r.value| == |meals| &&
      forall k :: 0 <= k < |meals| ==>
        r.value[k] == ToMealSummary(meals[k], Some(category)) && r.value[k].category.Some?
  {
    match filter(category)
    case Rejected => Rejected
    case Fulfilled(body) => Fulfilled(Summaries(MealsOf(body), Some(category)))
  }

  /** `getMealById`: an empty id yields null without a request; otherwise the first
      record found, or null when there is none. */
  function GetMealById(id: string, lookup: string -> Settled<MealsBody>): (r: Settled<Option<MealDetail>>)
    ensures id == [] ==> r == Fulfilled(None)
    ensures id != [] ==> (r.Rejected? <==> lookup(id).Rejected?)
    ensures id != [] && lookup(id).Fulfilled? && MealsOf(lookup(id).value) == [] ==> r == Fulfilled(None)
    ensures id != [] && lookup(id).Fulfilled? && MealsOf(lookup(id).value) != [] ==>
      r == Fulfilled(Some(ToMealDetail(MealsOf(lookup(id).value)[0])))
    ensures r.Fulfilled? && r.value.Some? ==>
      id != [] && lookup(id).Fulfilled? && MealsOf(lookup(id).value) != [] &&
      r.value.value == ToMealDetail(MealsOf(lookup(id).value)[0])
  {
    if id == [] then Fulfilled(None)
    else
      match lookup(id)
      case Rejected => Rejected
      case Fulfilled(body) =>
        match FirstMeal(body)
        case None => Fulfilled(None)
        case Some(meal) => Fulfilled(Some(ToMealDetail(meal)))
  }

  /** What one settled random request contributes: the summary of its first record,
      or nothing when it was rejected or found no record. */
  function Survivor(response: Settled<MealsBody>): (r: seq<MealSummary>)
    ensures |r| <= 1
    ensures r != [] <==> response.Fulfilled? && MealsOf(response.value) != []
  {
    match response
    case Rejected => []
    case Fulfilled(body) =>
      match FirstMeal(body)
      case None => []
      case Some(meal) => [ToMealSummary(meal, None)]
  }

  /** The concatenation of `f`'s outputs over `xs`, in order. */
  function Gather<T, U>(xs: seq<T>, f: T -> seq<U>): (r: seq<U>)
    ensures (forall k :: 0 <= k < |xs| ==> |f(xs[k])| <= 1) ==> |r| <= |xs|
  {
    if xs == [] then [] else Gather(xs[..|xs| - 1], f) + f(xs[|xs| - 1])
  }

  /** Gathering a concatenation gathers its parts in order. */
  lemma {:induction false} GatherAppend<T, U>(a: seq<T>, b: seq<T>, f: T -> seq<U>)
    ensures Gather(a + b, f) == Gather(a, f) + Gather(b, f)
    decreases |b|
  {
    if b == [] {
      assert a + b == a;
    } else {
      var c, init, last := a + b, b[..|b| - 1], b[|b| - 1];
      var front, middle, back := Gather(a, f), Gather(init, f), f(last);
      assert Gather(c, f) == (front + middle) + back by {
        assert c[..|c| - 1] == a + init && c[|c| - 1] == last;
        GatherAppend(a, init, f);
      }
      assert (front + middle) + back == front + (middle + back);
    }
  }

  /** The `map`/`filter` post-processing of a settled batch, in request order. */
  function Survivors(responses: seq<Settled<MealsBody>>): (r: seq<MealSummary>)
    ensures |r| <= |responses|
  {
    Gather(responses, Survivor)
  }

  /** A surviving response contributes exactly the summary of its first record,
      with no category fallback. */
  lemma SurvivorIsFirstSummary(response: Settled<MealsBody>)
    requires response.Fulfilled? && MealsOf(response.value) != []
    ensures Survivor(response) == [ToMealSummary(MealsOf(response.value)[0], None)]
  {
  }

  /** Survivors keep request order: the batch's result is its parts' results in order. */
  lemma SurvivorsAppend(a: seq<Settled<MealsBody>>, b: seq<Settled<MealsBody>>)
    ensures Survivors(a + b) == Survivors(a) + Survivors(b)
  {
    GatherAppend(a, b, Survivor);
  }

  /** A batch in which no request found a record yields nothing. */
  lemma {:induction false} SurvivorsNone(responses: seq<Settled<MealsBody>>)
    requires forall k :: 0 <= k < |responses| ==> Survivor(responses[k]) == []
    ensures Survivors(responses) == []
  {
    if responses != [] {
      SurvivorsNone(responses[..|responses| - 1]);
      assert Survivors(responses) == Survivors(responses[..|responses| - 1]) + Survivor(responses[|responses| - 1]);
    }
  }

  /** When every request found a record, the result has one summary per request, in order. */
  lemma {:induction false} SurvivorsAll(responses: seq<Settled<MealsBody>>)
    requires forall k :: 0 <= k < |responses| ==> Survivor(responses[k]) != []
    ensures |Survivors(responses)| == |responses|
    ensures forall k :: 0 <= k < |responses| ==> [Survivors(responses)[k]] == Survivor(responses[k])
  {
    if responses != [] {
      SurvivorsAll(responses[..|responses| - 1]);
    }
  }

  /** `getRandomMeals`: `count` independent requests (none for a negative count),
      each outcome given by `respond`; individual failures are absorbed. */
  function GetRandomMeals(count: int, respond: nat -> Settled<MealsBody>): (r: seq<MealSummary>)
    ensures |r| <= if count < 0 then 0 else count
  {
    Survivors(seq(if count < 0 then 0 else count, k requires 0 <= k => respond(k)))
  }
}
