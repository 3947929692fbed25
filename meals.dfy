/** The records the recipe service returns and the envelope they come in. */
module Meals {
  import opened Wrappers

  /** One entry of a `meals` array, reduced to the fields the page reads:
      `idMeal`, `strMeal`, `strMealThumb`, `strCategory`, and the `title` / `image`
      fields that stand in for the name and thumbnail when those are missing. */
  datatype Meal = Meal(
    id: string,
    name: Option<string>,
    thumb: Option<string>,
    category: Option<string>,
    title: Option<string>,
    image: Option<string>)

  /** The outcome of one request: the transport or the JSON decoding failed, or the
      decoded body, whose `meals` field is None when it is null or absent. */
  datatype Fetch<T> = NetworkError | Body(meals: Option<seq<T>>)

  /** A `meals` field as a list: null or absent counts as empty. */
  function MealsOf<T>(meals: Option<seq<T>>): seq<T> {
    if meals.Some? then meals.value else []
  }

  /** Some meal of s has `idMeal === id`. */
  predicate HasId(s: seq<Meal>, id: string) {
    exists k :: 0 <= k < |s| && s[k].id == id
  }
}
