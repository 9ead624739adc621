/** The record shapes of the recipe catalog and of the client's normalized views. */
module Meals {

  /** A field that may be `null` or absent; `??` treats the two alike. */
  datatype Option<+T> = None | Some(value: T)

  /** One catalog record as the upstream service returns it. Ingredient slot `i`
      (1-based, the field `strIngredient<i>`) is element `i - 1` of `strIngredient`,
      and likewise for `strMeasure`; a slot past the end of the sequence is absent. */
  datatype RawMeal = RawMeal(
    idMeal: string,
    strMeal: string,
    strCategory: Option<string>,
    strArea: Option<string>,
    strInstructions: Option<string>,
    strMealThumb: string,
    strTags: Option<string>,
    strYoutube: Option<string>,
    strSource: Option<string>,
    strIngredient: seq<Option<string>>,
    strMeasure: seq<Option<string>>)

  datatype Ingredient = Ingredient(ingredient: string, measure: string)

  datatype MealSummary = MealSummary(
    id: string,
    name: string,
    category: Option<string>,
    area: Option<string>,
    thumbnail: string)

  /** A detail record: the summary fields plus the long-form ones. */
  datatype MealDetail = MealDetail(
    summary: MealSummary,
    instructions: string,
    tags: seq<string>,
    youtube: Option<string>,
    source: Option<string>,
    ingredients: seq<Ingredient>)

  datatype MealCategory = MealCategory(strCategory: string)
}
