/** The recipe objects that flow from the recognition endpoint through
    keyword extraction and ranking. JavaScript gives them a dynamic shape;
    each field is modelled with exactly the cases the core distinguishes. */
module Recipes {

  datatype Option<+T> = None | Some(value: T)

  /** A field the core reads only when `Array.isArray` holds of it. A
      single string (as `instructions` sometimes is) and a missing field
      are kept apart so that the model can say both are ignored. */
  datatype TextList = Items(items: seq<string>) | Single(text: string) | Absent

  /** One candidate recipe. `name` is the empty string when the object has
      none: `if (recipe.name)` treats a missing and an empty name alike.
      `source` stands for the provenance tag and any other field the
      object carries, which ranking copies and never reads. `weight` is
      `None` until ranking has added one. */
  datatype Recipe = Recipe(
    name: string,
    ingredients: TextList,
    instructions: TextList,
    keywords: TextList,
    source: string,
    weight: Option<nat>)
}
