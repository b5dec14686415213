# Recipe preferences: keywords, history and ranking

This project models the preference logic of a recipe-suggestion app.

- **Keyword extraction.** `generateKeywords` takes a recipe object. It splits
  the name, and each string of an array-valued `ingredients` or `instructions`,
  on runs of whitespace. It lower-cases each piece and collects the pieces in
  an insertion-ordered set.
  It then removes 20 fixed stopwords. `generateKeywordsFromRecipes` joins the
  keyword lists of several recipes and removes duplicates again.
- **Preference store.** The history is a map from keyword to count, kept as
  JSON in one AsyncStorage item under `"userPreferences"`.
  `saveKeywordsToHistory` adds one per occurrence to each saved keyword's
  count. `getHistoryKeywords` reads the map back, giving `{}` on any failure.
  `clearHistory` removes the item.
- **Ranking.** `sortRecipesByHistory` gives each recipe a weight: the sum of
  the history counts of its `keywords`. It then sorts the recipes by
  descending weight with a stable sort. It returns the input unchanged if
  anything throws.
- **Sign-up checks.** The fields are checked in order: required fields,
  matching confirmation, length of at least 6, a letter in the password, and
  an `@` in the email. The first check that fails decides the alert. Account
  creation is reached only when all of them pass.

The modules follow the source:

- `Text` holds the ASCII part of `\s`, `toLowerCase` and `split(/\s+/)`.
- `Recipes` holds the recipe record.
- `KeywordExtraction` holds both extraction functions.
- `Preferences` holds the storage item as the `slot` field of a class, with
  the three storage operations as methods.
- `RecipeRanking` holds the weights, an in-place stable insertion sort on an
  array, and the whole ranking.
- `SignUpValidation` holds the check chain.

Each method's `ensures` ties its result or its new state to a function of its
inputs or its old state:

- `AddWords` and `AddField` are tied to the insertion-ordered `AddAll`.
- `GenerateKeywords` is tied to `KeywordsOf`.
- `ComputeWeight` is tied to `RecipeWeight`.
- `SortInPlace` is tied to `SortByWeight`.
- `RankRecipes` and `SortRecipesByHistory` are tied to `Ranked`.
- `SaveKeywordsToHistory` is tied to `Increment` of the old history.
- `GetHistoryKeywords` is tied to the stored history `History()`.
- `ClearHistory` and `ClearThenUse` are tied to the named states of the item.

The lemmas state what those functions guarantee.

Some of the modelled behaviour follows the code closely:

- A name with whitespace at either end makes `split` produce an empty piece.
  That empty string is not a stopword, so it survives as a keyword
  (`EdgeSpaceKeepsEmptyWord`).
- A `null` entry in the recipe list makes the ranking throw, so the original
  list comes back.
- `saveKeywordsToHistory` writes only once, at the end, so any failure leaves
  the stored history as it was.
- A stored item that does not parse makes every save fail, while every read of
  it yields `{}`.

## Model

| member | source | states |
|---|---|---|
| Text.Split | Components/PreferenceManager.js:48 | `split(/\s+/)` returns at least one piece, and no piece contains whitespace. Interior pieces are non-empty. The first piece is empty exactly when the text is empty or starts with whitespace. The last of several pieces is empty exactly when the text ends with whitespace. There is a single piece exactly when the text has no whitespace. Where the pieces break is fixed by `SplitRestoresSpace`. |
| Text.Gaps | Components/PreferenceManager.js:48 | The whitespace runs `split(/\s+/)` breaks at, in order. Each run is non-empty and all whitespace. |
| Text.SplitRestoresSpace | Components/PreferenceManager.js:48 | There is one gap fewer than there are pieces, and the pieces with the gaps put back between them are the original text. Together with the space-free pieces of `Split`, this fixes where every piece breaks. |
| Text.SplitDropsOnlySpace | Components/PreferenceManager.js:48 | The pieces, concatenated, are the text with its whitespace removed. Splitting loses nothing else. |
| Text.Lower | Components/PreferenceManager.js:48 | `toLowerCase` on a word: same length, each character lower-cased on its own (ASCII letters only). Its properties are in `LowerProperties`. |
| Text.LowerProperties | Components/PreferenceManager.js:48 | `toLowerCase` yields a lower-case word and keeps a space-free word space-free. Applying it twice gives the same word. |
| KeywordExtraction.AddAll | Components/PreferenceManager.js:44-61 | The `Set` filled by `add` at lines 48, 54 and 61: each word is appended unless already present. Its properties are in `AddAllMembers`, `AddAllDistinct` and `AddAllOrder`. |
| KeywordExtraction.RemoveStopwords | Components/PreferenceManager.js:66-67 | The `filter` that drops the 20 stopwords and keeps every other word in order. Its properties are in `RemoveStopwordsMembers` and `RemoveStopwordsKeeps`. |
| KeywordExtraction.AddWords | Components/PreferenceManager.js:48 | The loop that adds one text's lower-cased pieces to the set yields the set with those words appended in order, skipping words already present. |
| KeywordExtraction.AddField | Components/PreferenceManager.js:52-63 | An array-valued field adds the words of each string in order. A field that is not an array adds nothing. |
| KeywordExtraction.KeywordsOf | Components/PreferenceManager.js:43-68 | The reference definition of `generateKeywords`: the insertion-ordered set of the lower-cased pieces of the name (when present), then of each ingredient and each instruction string of an array-valued field, followed by the stopword filter. It has no contract of its own; its properties are in `KeywordsOfSpec`. |
| KeywordExtraction.GenerateKeywords | Components/PreferenceManager.js:43-68 | The imperative extraction of name, ingredients and instructions, followed by the stopword filter, returns exactly `KeywordsOf(recipe)`. |
| KeywordExtraction.AddAllOrder | Components/PreferenceManager.js:44 | The insertion-ordered set lists each word at the position of its first occurrence. |
| KeywordExtraction.RemoveStopwordsKeeps | Components/PreferenceManager.js:67 | The stopword filter keeps the words distinct and keeps them in first-seen order. |
| KeywordExtraction.KeywordsOfSpec | Components/PreferenceManager.js:43-68 | The keywords have no repeats and are in first-seen order. A word is a keyword if and only if it is a lower-cased piece of the name (when present) or of an ingredient or instruction string of an array-valued field, and is not a stopword. Every keyword is lower-case and space-free. |
| KeywordExtraction.NoTextNoKeywords | Components/PreferenceManager.js:47-63 | A recipe with no name and no array-valued ingredients or instructions has no keywords. |
| KeywordExtraction.OnlyStopwordsNoKeywords | Components/PreferenceManager.js:66-67 | A recipe whose every word is one of the 20 stopwords has no keywords. |
| KeywordExtraction.EdgeSpaceKeepsEmptyWord | Components/PreferenceManager.js:47-48 | A name that starts or ends with whitespace puts the empty string among the keywords. |
| KeywordExtraction.AllKeywords | Components/PreferenceManager.js:72 | `flatMap`: each recipe's keyword list, concatenated in recipe order. Its membership is stated in `AllKeywordsMembers`. |
| KeywordExtraction.KeywordsFromRecipes | Components/PreferenceManager.js:71-74 | `generateKeywordsFromRecipes`: `[...new Set(...)]` of the concatenated lists. It has no contract of its own; its properties are in `KeywordsFromRecipesSpec`. |
| KeywordExtraction.KeywordsFromRecipesSpec | Components/PreferenceManager.js:71-74 | The batch keywords have no repeats and are in first-seen order over the concatenated lists. A word is among them if and only if it is a keyword of some recipe. |
| Preferences.Increment | Components/PreferenceManager.js:11-13 | The `forEach` that adds one to each keyword's count, starting from 0 for a missing key. It has no contract of its own; its properties are in `IncrementCounts` and `IncrementKeys`. |
| Preferences.IncrementCounts | Components/PreferenceManager.js:11-13 | After the increment loop, each count has grown by the number of occurrences of its keyword in the input, repeats included. |
| Preferences.IncrementKeys | Components/PreferenceManager.js:11-13 | The loop adds the input's keywords as keys and removes no key. An entry the input does not mention is unchanged. |
| Preferences.SavedKeywordsPresent | Components/PreferenceManager.js:11-13 | Every saved keyword ends up in the history with a count of at least one. |
| Preferences.SaveExample | Components/PreferenceManager.js:11-13 | Saving `tomato, tomato, basil` raises `tomato` by 2 and `basil` by 1. |
| Preferences.PreferenceStore.History | Components/PreferenceManager.js:23-31 | The map a successful read yields: `storedHistory ? JSON.parse(storedHistory) : {}` at lines 8 and 26, with the `catch` at lines 27-29 turning a parse error into `{}`. `GetHistoryKeywords` is proved against it. |
| Preferences.PreferenceStore.SaveKeywordsToHistory | Components/PreferenceManager.js:4-20 | On success the item holds the old history (or `{}` when there is none) incremented by the keywords. If `getItem` fails, the item does not parse, or `setItem` fails, the item is unchanged. |
| Preferences.PreferenceStore.GetHistoryKeywords | Components/PreferenceManager.js:23-31 | The read yields the stored history. It yields `{}` when no item is stored, when the item does not parse, or when `getItem` fails. |
| Preferences.PreferenceStore.ClearHistory | Components/PreferenceManager.js:34-40 | A successful clear removes the item. A failing `removeItem` leaves it as it was. |
| Preferences.ClearThenUse | Components/PreferenceManager.js:23-40 | After a clear, every read yields `{}`, and the next save starts from an empty history. |
| RecipeRanking.Weight | Components/sortRecipesByHistory.js:14-16 | The sum of `history[keyword]`, or 0 for a missing key, over a keyword list. Its properties are in `WeightAppend`, `WeightMonotone` and `WeightEmptyHistory`. |
| RecipeRanking.RecipeWeight | Components/sortRecipesByHistory.js:10-17 | The weight of a recipe: `Weight` of an array-valued `keywords`, and 0 otherwise. Its properties are in `ZeroWeight` and `SaveNeverLowersWeight`. |
| RecipeRanking.ComputeWeight | Components/sortRecipesByHistory.js:10-17 | The weight loop returns the sum of the history counts (0 for an unknown keyword) over an array-valued `keywords`, and 0 otherwise. |
| RecipeRanking.WithWeight | Components/sortRecipesByHistory.js:19 | `{ ...recipe, weight }`: the recipe with every field kept and `weight` set to `RecipeWeight`. Its use is characterised in `RankedSpec`. |
| RecipeRanking.Weighted | Components/sortRecipesByHistory.js:9-20 | The `map` that gives every recipe its weight, in input order. Its use is characterised in `RankedSpec`. |
| RecipeRanking.WeightAppend | Components/sortRecipesByHistory.js:14-16 | The weight of concatenated keyword lists is the sum of their weights. |
| RecipeRanking.ZeroWeight | Components/sortRecipesByHistory.js:10-17 | A recipe whose `keywords` is not an array, or any recipe under an empty history, has weight 0. |
| RecipeRanking.WeightMonotone | Components/sortRecipesByHistory.js:14-16 | A history whose counts are pointwise at least as large gives every keyword list at least the same weight. |
| RecipeRanking.SaveNeverLowersWeight | Components/sortRecipesByHistory.js:14-16 | Saving keywords to the history never lowers a recipe's weight. |
| RecipeRanking.SortByWeight | Components/sortRecipesByHistory.js:23 | The result of `weightedRecipes.sort((a, b) => b.weight - a.weight)`, as a stable insertion sort on sequences, of the same length as its input. `SortInPlace` is proved equal to it, and its properties are in `SortByWeightSpec`. |
| RecipeRanking.SortByWeightSpec | Components/sortRecipesByHistory.js:23 | The reference sort returns a permutation of its input, ordered by non-increasing weight. Recipes of equal weight keep their input order, so the sort is stable. |
| RecipeRanking.InsertAt | Components/sortRecipesByHistory.js:23 | One in-place insertion step on the array moves element `i` into the sorted prefix, past lighter elements only. The rest of the array is untouched. |
| RecipeRanking.SortInPlace | Components/sortRecipesByHistory.js:23 | The in-place array sort leaves the array holding exactly `SortByWeight` of its old contents. |
| RecipeRanking.Ranked | Components/sortRecipesByHistory.js:9-27 | The reference definition of the ranking after the read of the history: the input itself when an entry is missing, otherwise the stable descending sort of the weighted copies. Its properties are in `RankedSpec`. |
| RecipeRanking.RankedSpec | Components/sortRecipesByHistory.js:9-27 | The ranking has as many entries as the input. With a missing (`null`) entry, the input is returned unchanged. Otherwise the output is a permutation of the weighted copies, sorted by non-increasing weight and stable on ties, and each recipe carries its own weight. |
| RecipeRanking.RankRecipes | Components/sortRecipesByHistory.js:9-27 | The map over the recipes, followed by the in-place sort, returns exactly `Ranked(recipes, history)`. On a missing entry it returns the input. |
| RecipeRanking.SortRecipesByHistory | Components/sortRecipesByHistory.js:3-28 | The ranking uses the stored history, or `{}` when reading it fails, and leaves the store unchanged. |
| RecipeRanking.RankingTieExample | Components/sortRecipesByHistory.js:23 | Under `{a:1, b:5}`, two recipes tied on weight 1 keep their order behind the recipe of weight 5. |
| RecipeRanking.RankingWeightExample | Components/sortRecipesByHistory.js:9-23 | Under `{tomato:3, basil:1}`, keywords `tomato, basil` weigh 4 and rank above `basil` alone, which weighs 1. |
| SignUpValidation.ValidateSignup | screens/SignUpScreen.js:22-41 | The five checks in the source's order, each returning its error as soon as it fails, with `Proceed` when all pass. It has no contract of its own; its characterisation is in `ValidateSignupSpec`. |
| SignUpValidation.Search | screens/SignUpScreen.js:34 | `search` returns -1 when nothing matches. Otherwise it returns the index of the first matching character. |
| SignUpValidation.ValidateSignupSpec | screens/SignUpScreen.js:22-41 | Each alert is shown exactly when its check fails and every earlier check passes, as an if-and-only-if for each of the five errors. Account creation is reached exactly when the username is non-empty, the confirmation equals the password, the password has at least 6 characters including a letter, and the email contains `@`. |
| SignUpValidation.ProceedMeansAllChecksPass | screens/SignUpScreen.js:22-46 | When account creation is reached, all fields are non-empty, the confirmation equals a password of at least 6 characters with a letter, and the email contains `@`. |

## Left out

- AsyncStorage and JSON are modelled as a `slot` field holding no item, a parsed map, or an unparsable text. Whether `getItem`, `setItem` or `removeItem` fails is a parameter. `async` interleaving of concurrent saves, which can lose updates, is not modelled.
- `console.error` logging and the `Alert` user interface are left out. The alert text is kept as `Message`.
- `\s` and `toLowerCase` are modelled for ASCII only. Unicode whitespace and non-ASCII case mapping are not modelled.
- The password length is counted in characters, not UTF-16 code units.
- Inputs that make the source throw for reasons the core does not handle are not modelled:
  - non-string elements of an array-valued `ingredients` or `instructions`, which have no `split`;
  - a `null` recipe passed to `generateKeywords`;
  - a value without `forEach` passed to `saveKeywordsToHistory`;
  - a `recipes` value without `flatMap` passed to `generateKeywordsFromRecipes`.
  A `null` entry in the ranked list is modelled.
- A `recipes` value without `map` makes the ranking throw, and its `catch` returns that value unchanged. The model takes `recipes` as a list and does not model this case.
- Non-string keywords, in a recipe's `keywords` list or in the list passed to `saveKeywordsToHistory`, do not throw. `history[keyword]` turns them into property-name strings, so `1` reads and bumps `history["1"]`. The model types keywords as strings and does not model this conversion.
- A keyword collection that is not an array but has `forEach`, such as a `Set`, is counted by `saveKeywordsToHistory` like an array. The model takes the keywords as a sequence.
- A stored item that parses to something other than a map from keywords to counts is not modelled. Keys that name `Object.prototype` properties (such as `constructor`) are treated as ordinary keys.
- Counts and weights are modelled as unbounded `nat`. JavaScript numbers are doubles and stop counting exactly above 2^53.
- A truthy `name` that is not a string makes `recipe.name.split` throw. The model types the name as a string and does not model that case.
- The name is modelled as a string, with the empty string standing for a missing name. `if (recipe.name)` treats the two alike.
- The JavaScript engine's own sort algorithm is not modelled. The model sorts by stable insertion sort. Because the sort is stable, the sorted result is uniquely determined, so it is the same result.
- Account creation, the Firestore writes and navigation after a successful sign-up are not modelled.
