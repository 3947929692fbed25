# Recipe site helpers — a Dafny model

The site is a browser front end for a public recipe service (TheMealDB). Most of
`app.js` fetches data and builds HTML. This project models the parts of it that shape
data, and proves their properties:

- **`esc`**: escapes text for the inside of an HTML element (module `Escape`).
- **`capitalize`**: upper-cases a leading `\w` character (module `Capitalization`).
- **The search merge in `doSearch`**: the by-name meals, then each by-ingredient meal
  whose `idMeal` is not already in the list. There is also the choice between the
  prompt, the failure message, "no results" and the result cards (module `Search`).
- **The ingredient compaction in `initRecipe`**: the 20 numbered ingredient / measure
  fields become a list of `"measure ingredient"` entries with blank fields skipped.
  There is also the choice between "no recipe selected", failure, "not found" and the
  recipe (module `Recipe`).
- **The save button of `cardForMeal`**: add-if-absent on the favourites list in local
  storage, with the title and image fallbacks and the button label (module `Favorites`,
  classes `Storage` and `SaveButton`).

Supporting modules:

- `Wrappers` holds `Option`, which stands for JavaScript's null / undefined.
- `JsString` models `String.prototype.trim` over the ECMAScript whitespace and
  line-terminator code points.
- `Meals` holds the `Meal` record and the `Fetch` outcome of one request. A `Fetch` is
  a transport or decoding failure, or a body whose `meals` field may be null.

Loops become methods with loop invariants, each proved against a pure specification
function: `Search.Find` against `HasId` (some meal of the list has the id), `Search.Merge`
against `Merged`, `Recipe.Compact` against `Compacted`. The favourites read-modify-write is a class whose `Click` is proved against
`AfterClick`. The properties are lemmas about those specification functions.

Each specification has an independent partner:

- `Merged` is shown equal to the by-name meals followed by `FirstFresh`. `FirstFresh`
  is the by-ingredient meals whose id occurs neither among the by-name meals nor
  earlier among the by-ingredient meals.
- `Compacted` is matched entry by entry with `KeptSlots`, the ascending indices of the
  non-blank fields.
- `Esc` (three `replaceAll` passes) is shown equal to a one-pass, per-character escape
  and is inverted by `Unescape`.

The code awaits the by-name request before it issues the by-ingredient one
(app.js:110-112). The requests are not issued in parallel. Either failure leads to the
same failure message, so the model takes both responses as inputs.

## Model

| member | source | states |
|---|---|---|
| `Escape.ReplaceAll` | app.js:12 | `replaceAll` of one character: every character of the result comes from the replacement or is a kept character other than the pattern, and text without the pattern is unchanged |
| `Escape.Esc` | app.js:12 | null / undefined gives `""`, and the output contains no `<` and no `>` |
| `Escape.EscIsOnePass` | app.js:12 | because `&` is replaced first, the three passes equal one per-character escape: no entity is escaped twice |
| `Escape.EscRoundTrip` | app.js:12 | unescaping the output of `esc` gives back the input |
| `Escape.EscAmpersandsBeginEntities` | app.js:12 | every `&` in the output begins `&amp;`, `&lt;` or `&gt;` |
| `Escape.EscKeepsPlainText` | app.js:12 | text without `&`, `<`, `>` passes unchanged, so quotes are not escaped and the output is not attribute-safe |
| `Capitalization.Capitalize` | app.js:245 | null gives `""`; the length is kept; only the first character can change, and it changes exactly when it is an ASCII lower-case letter, to its upper-case form |
| `Capitalization.CapitalizeIdempotent` | app.js:245 | capitalizing twice equals capitalizing once |
| `Capitalization.CapitalizeKeepsNonWordStart` | app.js:245 | a string that does not start with a `\w` character is unchanged |
| `Capitalization.CapitalizeTag` | app.js:37-41 | the tag `chicken` is labelled `Chicken` |
| `JsString.LeadingWhitespace` | app.js:173 | the count of leading characters `trim` strips stops at the first non-whitespace character |
| `JsString.TrailingWhitespace` | app.js:173 | the count of trailing characters `trim` strips stops at the last non-whitespace character |
| `JsString.Trim` | app.js:173 | the result has no whitespace at either end and is no longer than the input |
| `JsString.TrimIsMiddle` | app.js:173 | the result is the middle of the input, between a blank prefix and a blank suffix |
| `JsString.TrimEmptyIffBlank` | app.js:173 | `s.trim()` is empty (falsy) exactly when `s` is all whitespace |
| `JsString.TrimIdempotent` | app.js:173 | trimming twice equals trimming once |
| `Search.Find` | app.js:120 | the linear `find` over the accumulated list succeeds exactly when some meal has the same `idMeal` |
| `Search.Merge` | app.js:114-122 | the pushed list equals `Merged` of the by-name and by-ingredient `meals`, a null `meals` counting as empty |
| `Search.MergedBounds` | app.js:114-121 | the by-name meals are an exact prefix, in order, and the length lies between the by-name count and the sum of both counts |
| `Search.MergedIds` | app.js:114-121 | an id occurs in the merged list exactly when it occurs in either source |
| `Search.MergedIsNamesThenFirstFresh` | app.js:116-121 | a by-ingredient meal is appended exactly when its id is neither among the by-name meals nor earlier among the by-ingredient meals; appended meals keep by-ingredient order |
| `Search.MergedAppendedAreNew` | app.js:118-121 | no appended meal repeats the id of any meal before it |
| `Search.MergedEmpty` | app.js:114-124 | the merged list is empty exactly when both sources are |
| `Search.MergeExample` | app.js:114-121 | by name [1, 2] and by ingredient [2, 3] merge to [1, 2, 3] |
| `Search.DoSearch` | app.js:102-137 | the prompt is shown exactly when the query is empty; a failed request shows the failure message; "no results" is shown exactly when both responses have empty or null `meals`; otherwise the cards show the non-empty merged list |
| `Recipe.Entry` | app.js:173 | the pushed entry is trimmed and not empty |
| `Recipe.EntryParts` | app.js:173 | an entry ends with the trimmed ingredient; with an absent or blank measure it is exactly that ingredient, otherwise measure, one space, ingredient |
| `Recipe.IngredientAlone` | app.js:171-173 | a trimmed non-empty ingredient with no measure is kept, and its entry is the ingredient itself |
| `Recipe.CompactedLength` | app.js:169-174 | the list has one entry per kept field, so at most one per field read |
| `Recipe.KeptSlotsAscend` | app.js:170-173 | the kept field indices are below the number of fields read and ascend |
| `Recipe.KeptSlotsExact` | app.js:170-173 | a field is kept exactly when its ingredient is present and not blank after trimming |
| `Recipe.CompactedFollowsSlots` | app.js:169-174 | entry j is the entry of the j-th kept field, in field order |
| `Recipe.CompactedEntriesTrimmed` | app.js:173 | every entry of the list is trimmed and not empty |
| `Recipe.Compact` | app.js:169-174 | the loop over fields 1..20 builds `Compacted` of the meal's fields, at most 20 entries |
| `Recipe.CompactedPastEnd` | app.js:169-173 | fields beyond those the record has read as undefined and add no entry |
| `Recipe.CompactSkipsEmptyField` | app.js:169-174 | Salt, an empty field, Pepper and 17 undefined fields compact over the 20-field loop to exactly [Salt, Pepper] |
| `Recipe.LoadRecipe` | app.js:155-174 | no id shows "no recipe selected"; a failed request shows the failure; "not found" is shown exactly when `meals` is null or empty; otherwise the first meal is shown with its compacted ingredients |
| `Favorites.FirstNonEmpty` | app.js:213-214 | `strMeal`, else `title`, else `''` (likewise for the image): the first present non-empty value, and empty exactly when neither is one |
| `Favorites.SaveButton.constructor` | app.js:212-223 | the card saves its meal's id, the name falling back to `title`, the thumbnail falling back to `image`, and the button starts as "Save" |
| `Favorites.SaveButton.Click` | app.js:229-240 | the new storage entry and button text are those `AfterClick` gives for the old entry and text |
| `Favorites.ClickAppendsOnly` | app.js:231-238 | on a readable list, a click appends exactly the card's favourite at the end when its id is absent ("Saved"), and changes nothing when present ("Already") |
| `Favorites.ClickIdempotent` | app.js:231-238 | a second click on the same card writes nothing more and shows "Already" |
| `Favorites.SaveTwiceStoresOnce` | app.js:231-234 | saving a recipe twice leaves exactly one entry with its id, on any readable list that held at most one entry with it before |
| `Favorites.ClickKeepsIdsUnique` | app.js:231-234 | clicks keep the ids of the stored list distinct |

## Left out

- Requests (`fetch`, `Promise.all`, `async` ordering) are left out as network I/O. Their outcomes are method parameters of type `Fetch`.
- The home page's trending and featured loaders (app.js:29-87) are left out. They only issue requests and render.
- DOM construction, `innerHTML` templates, event listeners, `location`, `history` and `URLSearchParams` are left out. They are UI plumbing. The query and the `id` parameter are method parameters.
- `debounce` (app.js:19) is left out. It is timer-based and unused.
- `JSON.parse`, `JSON.stringify` and `localStorage` are reduced to the `Blob` value. Any text that does not parse to a list (including `null` and non-arrays, which make `find` throw) is `Corrupt`, and a click on it changes nothing. A `localStorage.setItem` that fails (storage full or disabled) is also caught and leaves the entry and the label as they were; write failures are not modelled, so `AfterClick` always stores and shows "Saved" for an absent id.
- Favourites saved from several tabs at once race with last-writer-wins. Concurrency is not modelled.
- `(s||'').toString()` on non-string values, such as numbers, is not modelled. Inputs are optional strings.
- A recipe lookup whose JSON body is itself `null` throws and shows the failure message. The model has no separate case for a null body, so it reads that case as `NetworkError`.
- Only the `meals` envelope and the fields that the modelled code reads are kept in `Meal`.
- signup.js is not part of this model. It only stores a username and password in local storage after an empty-field check.
- No safety inside attribute values is claimed for `esc`. Quotes are not escaped, yet the page uses `esc` in `alt` and `src` attributes.
