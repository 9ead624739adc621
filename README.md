# Meal browser: navigation and data shaping, in Dafny

This project models the logic of a small meal-catalog browser. The browser has three
views over a public recipe catalog:

- a search/list view with a sortable result list whose query state lives in the URL;
- a gallery that merges the meals of several selected categories;
- a detail view that steps through the list the user came from.

The model covers everything in those views that is not HTTP, timers or markup:

- the record normaliser of the API module: summaries, details, ingredient slots, tags,
  the guards of each request and the post-processing of settled responses;
- the list view's URL-parameter decoding and minimal re-encoding, its handlers, its
  stable case-insensitive sort and its link payloads;
- the gallery's id-keyed merge of per-category results, its category toggle, its
  default selection and its all-or-nothing batch;
- the detail view's binding of a list context, its wrap-around stepping with
  JavaScript's truncating `%`, its control flags and its instruction paragraphs.

Files, one module each:

| file | module | models |
|---|---|---|
| `meals.dfy` | `Meals` | the record types of `mp2/src/types/meal.ts` |
| `text.dfy` | `Text` | the JavaScript string built-ins the code relies on: `trim`, `toLowerCase`, `>` on strings, `split`; plus a `Join`, which the source never calls, used only to state the split round trips |
| `meal_api.dfy` | `MealApi` | `mp2/src/api/mealApi.ts` |
| `list_links.dfy` | `ListLinks` | the `{list, index, origin}` payload both listing views attach to links |
| `list_page.dfy` | `ListPage` | `mp2/src/pages/ListPage/ListPage.tsx` |
| `gallery_page.dfy` | `GalleryPage` | `mp2/src/pages/GalleryPage/GalleryPage.tsx` |
| `meal_detail_page.dfy` | `MealDetailPage` | `mp2/src/pages/MealDetailPage/MealDetailPage.tsx` |

Conventions:

- A nullable or optional field is an `Option`; the `??` operator treats null and
  undefined alike.
- Each HTTP call is a function parameter. It maps the request parameter (the query, the
  category, the id, or the index of a random request) to a settled response:
  `Rejected`, or `Fulfilled` with the catalog's `meals` body, which may itself be null.
- Each view's state cells are the fields of a class (`ListView`, `GalleryView`,
  `DetailView`), and each handler or effect is a method. Effects are modelled as already
  settled: each method takes the responses as parameters.
- Where the source works step by step, the model is a method: the ingredient loop, the
  in-place sort of a copied array and the nested loops that fill the merge `Map` become
  methods with loops, and the conditional `params.set` calls on a fresh parameter set
  become a method of successive map updates, without a loop. Each such method is proved equal to a
  specification function, and the properties are proved about that function.

## Model

| member | source | states |
|---|---|---|
| MealApi.ToMealSummary | mp2/src/api/mealApi.ts:15-21 | id, name and thumbnail are copied; the category is the record's own when present (even `''`), otherwise the fallback, otherwise null; the area is the record's own, null when absent |
| MealApi.BuildIngredients | mp2/src/api/mealApi.ts:23-39 | the loop over slots 1..20 produces exactly the entries of the slot-by-slot specification `IngredientsUpTo(meal, 20)` |
| MealApi.IngredientsUpTo | mp2/src/api/mealApi.ts:26-36 | scanning n slots gives at most n entries |
| MealApi.IngredientCount | mp2/src/api/mealApi.ts:30-35 | there is exactly one entry per slot whose name is non-blank after trimming; blank-named slots are skipped whatever their measure |
| MealApi.IngredientsAreClean | mp2/src/api/mealApi.ts:31-34 | every ingredient name is trimmed and non-empty, every measure is trimmed (`''` for an absent one) |
| MealApi.IngredientsGrow | mp2/src/api/mealApi.ts:26 | scanning more slots only appends: the entries of the first m slots are a prefix of those of the first n |
| MealApi.IngredientOfSlot | mp2/src/api/mealApi.ts:26-35 | a named slot i yields the entry at the position counting the named slots before it, so entries are in increasing slot order |
| MealApi.Tags | mp2/src/api/mealApi.ts:48 | every tag is non-empty, trimmed and comma-free |
| MealApi.TagsOfJoined | mp2/src/api/mealApi.ts:48 | joining clean tags with commas and parsing them back gives the same tags, in order |
| MealApi.TagsWithoutComma | mp2/src/api/mealApi.ts:48 | a comma-free tag string gives its trimmed text as the one tag, or no tag when blank |
| MealApi.ToMealDetail | mp2/src/api/mealApi.ts:41-52 | the summary part never uses a fallback category; instructions default to `''`; youtube and source are copied, null stays null; tags and ingredients are the parsed ones |
| MealApi.FirstMeal | mp2/src/api/mealApi.ts:104 | the first record of the body, and none exactly when the body is null or empty |
| MealApi.SearchMeals | mp2/src/api/mealApi.ts:54-69 | a blank query yields `[]` without a request; otherwise the trimmed query is sent, a failure propagates, and the k-th summary is the k-th record's summary without a fallback category |
| MealApi.FilterMealsByCategory | mp2/src/api/mealApi.ts:80-92 | a failure propagates; otherwise the k-th summary is the k-th record's summary with the queried category as fallback, so each has a category |
| MealApi.GetMealById | mp2/src/api/mealApi.ts:94-107 | an empty id yields null without a request; a failure propagates; an empty body yields null; a non-empty body yields the detail of its first record |
| MealApi.Survivor | mp2/src/api/mealApi.ts:117-125 | a response contributes at most one summary, and one exactly when it was fulfilled with a record |
| MealApi.SurvivorIsFirstSummary | mp2/src/api/mealApi.ts:122-124 | a surviving response contributes the summary of its first record, without a fallback category |
| MealApi.Survivors | mp2/src/api/mealApi.ts:116-126 | a batch never yields more summaries than it has responses |
| MealApi.SurvivorsAppend | mp2/src/api/mealApi.ts:116-126 | the survivors of two batches are the survivors of each, in request order |
| MealApi.SurvivorsNone | mp2/src/api/mealApi.ts:118-124 | a batch whose every response is rejected or empty yields nothing |
| MealApi.SurvivorsAll | mp2/src/api/mealApi.ts:116-126 | when every response survives, the result has one summary per request, in request order |
| MealApi.GetRandomMeals | mp2/src/api/mealApi.ts:109-127 | the result never has more than `count` meals, and none for a negative count |
| Text.Trim | mp2/src/api/mealApi.ts:30 | the result has no space at either end, and is empty exactly when the input is all spaces |
| Text.TrimCutsBlankEnds | mp2/src/api/mealApi.ts:30 | the result is a slice of the input whose cut-off prefix and suffix are all spaces |
| Text.TrimKeepsAbsent | mp2/src/api/mealApi.ts:48 | trimming never introduces a character |
| Text.TrimIdempotent | mp2/src/pages/ListPage/ListPage.tsx:120 | trimming twice is trimming once |
| Text.Lower | mp2/src/pages/ListPage/ListPage.tsx:35-36 | lower-casing keeps the length |
| Text.Less | mp2/src/pages/ListPage/ListPage.tsx:42 | a proper prefix is smaller than the longer string |
| Text.LessIrreflexive | mp2/src/pages/ListPage/ListPage.tsx:42 | no string is greater than itself |
| Text.LessTransitive | mp2/src/pages/ListPage/ListPage.tsx:42 | string order is transitive |
| Text.LessTotal | mp2/src/pages/ListPage/ListPage.tsx:42 | of two different strings one is smaller |
| Text.LessAsymmetric | mp2/src/pages/ListPage/ListPage.tsx:42 | two strings are never each smaller than the other |
| Text.Split | mp2/src/api/mealApi.ts:48 | splitting gives at least one piece, and no piece holds the separator |
| Text.JoinSplit | mp2/src/api/mealApi.ts:48 | joining the pieces of a split restores the string |
| Text.SplitJoin | mp2/src/api/mealApi.ts:48 | splitting separator-free pieces joined by the separator gives the pieces back |
| Text.CleanPieces | mp2/src/api/mealApi.ts:48 | after trimming and dropping empties, every piece is non-empty and trimmed |
| Text.CleanPiecesOfClean | mp2/src/api/mealApi.ts:48 | pieces that are already clean pass unchanged |
| ListLinks.MealIdList | mp2/src/pages/ListPage/ListPage.tsx:183-186 | the id list has one id per meal, position by position |
| ListLinks.LinkStates | mp2/src/pages/GalleryPage/GalleryPage.tsx:147-151 | the link at position k carries index k, the listing's origin, and the full id list whose entry k is that link's meal |
| ListLinks.LinkBindsItsMeal | mp2/src/pages/ListPage/ListPage.tsx:239-243 | following a link binds the detail view to that position, that origin and every displayed id |
| ListPage.Compare | mp2/src/pages/ListPage/ListPage.tsx:20-43 | the comparator returns only -1, 0 or 1; what each sign means is `CompareMeaning` |
| ListPage.CompareMeaning | mp2/src/pages/ListPage/ListPage.tsx:35-42 | the comparator is 0 exactly for equal lower-cased keys, negative exactly when the first meal's key comes first in the chosen direction |
| ListPage.DescendingFlipsSign | mp2/src/pages/ListPage/ListPage.tsx:18 | the descending comparator is the ascending one negated |
| ListPage.CompareAntisymmetric | mp2/src/pages/ListPage/ListPage.tsx:38-42 | swapping the meals negates the comparison |
| ListPage.CompareTransitive | mp2/src/pages/ListPage/ListPage.tsx:38-42 | "no later than" is transitive |
| ListPage.EmptyTextComparesFirst | mp2/src/pages/ListPage/ListPage.tsx:35-36 | a null or empty field sorts no later than anything ascending and no earlier than anything descending |
| ListPage.ComparatorForIsConsistent | mp2/src/pages/ListPage/ListPage.tsx:20-43 | the comparator handed to `sort` satisfies the laws a sort needs |
| ListPage.InsertPermutes | mp2/src/pages/ListPage/ListPage.tsx:20 | inserting a meal adds exactly that meal |
| ListPage.InsertKeepsOrder | mp2/src/pages/ListPage/ListPage.tsx:20 | inserting into an ordered list keeps it ordered |
| ListPage.InsertIsStable | mp2/src/pages/ListPage/ListPage.tsx:38-40 | a meal inserted lands after every meal that ties with it |
| ListPage.SortedByPermutes | mp2/src/pages/ListPage/ListPage.tsx:16-20 | the sorted list is a permutation of the input |
| ListPage.SortedByIsOrdered | mp2/src/pages/ListPage/ListPage.tsx:20-43 | the sorted list agrees with the comparator pairwise |
| ListPage.SortedByIsStable | mp2/src/pages/ListPage/ListPage.tsx:38-40 | meals that tie keep their input order |
| ListPage.SortedMealsCorrect | mp2/src/pages/ListPage/ListPage.tsx:16-44 | `sortMeals` returns a permutation, ordered by lower-cased key in the chosen direction, and stable among equal keys |
| ListPage.TiesShareKey | mp2/src/pages/ListPage/ListPage.tsx:38-40 | the meals that tie with a pivot are exactly those with its lower-cased key |
| ListPage.TiesMembers | mp2/src/pages/ListPage/ListPage.tsx:38-40 | a meal is among the ties exactly when it is in the list and compares equal |
| ListPage.EmptyTextsAtTheEnds | mp2/src/pages/ListPage/ListPage.tsx:35-36 | meals with a null or empty key come first ascending and last descending |
| ListPage.InsertAt | mp2/src/pages/ListPage/ListPage.tsx:20 | the position where the shifting loop stops is where the specification inserts |
| ListPage.ShiftLarger | mp2/src/pages/ListPage/ListPage.tsx:20 | the inner loop moves exactly the elements that compare after the new one, one place right, and touches nothing past it |
| ListPage.InsertInPlace | mp2/src/pages/ListPage/ListPage.tsx:20 | one pass over the array leaves its prefix equal to the specification's insertion and the rest untouched |
| ListPage.SortMeals | mp2/src/pages/ListPage/ListPage.tsx:16-44 | sorting a fresh copy of the list in place yields `SortedMeals`, whose properties are proved above; the caller's list is a value and stays unchanged |
| ListPage.ParseSortKey | mp2/src/pages/ListPage/ListPage.tsx:60-62 | a known key name decodes to that key, anything else (or nothing) to `name` |
| ListPage.ParseSortOrder | mp2/src/pages/ListPage/ListPage.tsx:63-65 | the order is descending exactly when the parameter is `desc` |
| ListPage.Decode | mp2/src/pages/ListPage/ListPage.tsx:50-65 | the query is the `q` parameter, `''` when missing; a non-default key was named by `sort`; the order is descending exactly when `order` is `desc` |
| ListPage.ParamsFor | mp2/src/pages/ListPage/ListPage.tsx:67-83 | `q` is written exactly when the trimmed query is non-empty, and carries it |
| ListPage.Encode | mp2/src/pages/ListPage/ListPage.tsx:67-83 | `q` is written exactly when the query is not blank |
| ListPage.EncodeOmitsDefaults | mp2/src/pages/ListPage/ListPage.tsx:67-83 | only `q`, `sort` and `order` are written, each exactly when it differs from its default; `q` carries the trimmed query |
| ListPage.DecodeEncode | mp2/src/pages/ListPage/ListPage.tsx:50-83 | decoding the written parameters restores the state with the query trimmed |
| ListPage.EncodeDecodeEncode | mp2/src/pages/ListPage/ListPage.tsx:50-83 | re-encoding a decoded URL changes nothing |
| ListPage.SyncedRestores | mp2/src/pages/ListPage/ListPage.tsx:50-83 | parameters in sync with the state decode back to it, query trimmed |
| ListPage.Flipped | mp2/src/pages/ListPage/ListPage.tsx:178 | toggling always changes the order |
| ListPage.FlipIsInvolution | mp2/src/pages/ListPage/ListPage.tsx:177-181 | toggling twice restores the order |
| ListPage.DisplayMeals | mp2/src/pages/ListPage/ListPage.tsx:160-163 | the displayed list is a permutation of the search results when the trimmed query is non-empty and of the featured meals otherwise, ordered by the comparator, and meals with equal keys keep their order |
| ListPage.ListView.Display | mp2/src/pages/ListPage/ListPage.tsx:160-163 | `DisplayMeals` applied to the view's query, lists, key and order: a permutation of the featured meals for a blank query, of the search results otherwise, ordered by the comparator |
| ListPage.ListView.Links | mp2/src/pages/ListPage/ListPage.tsx:239-243 | `LinkStates` over `Display` with `Origin(query)`: link k carries index k, origin `featured` for a blank query and `search` otherwise, and the full id list, whose entry k is the k-th displayed meal's id |
| ListPage.Origin | mp2/src/pages/ListPage/ListPage.tsx:243 | the origin is `featured` exactly when the query is blank, `search` otherwise |
| ListPage.ListView.constructor | mp2/src/pages/ListPage/ListPage.tsx:49-65 | the initial state is decoded from the URL and the lists start empty |
| ListPage.ListView.SyncSearchParams | mp2/src/pages/ListPage/ListPage.tsx:67-83 | the successive `set` calls produce exactly the minimal encoding of the next state |
| ListPage.ListView.HandleQueryChange | mp2/src/pages/ListPage/ListPage.tsx:165-169 | only the query and the URL change; the URL is in sync afterwards |
| ListPage.ListView.HandleSortKeyChange | mp2/src/pages/ListPage/ListPage.tsx:171-175 | only the sort key and the URL change; the URL is in sync afterwards |
| ListPage.ListView.ToggleSortOrder | mp2/src/pages/ListPage/ListPage.tsx:177-181 | only the order (flipped) and the URL change; the URL is in sync afterwards |
| ListPage.ListView.LoadFeatured | mp2/src/pages/ListPage/ListPage.tsx:85-114 | the featured list becomes the survivors of 8 random requests and the error clears |
| ListPage.ListView.RunSearch | mp2/src/pages/ListPage/ListPage.tsx:116-158 | a blank query clears the results and the error; a failed search clears the results and sets the search error; a successful one stores the results and clears the error |
| GalleryPage.Put | mp2/src/pages/GalleryPage/GalleryPage.tsx:67 | after `set`, the meal's id maps to that meal |
| GalleryPage.MergeAllKeysBound | mp2/src/pages/GalleryPage/GalleryPage.tsx:65-70 | the map never has more keys than meals were set |
| GalleryPage.Merged | mp2/src/pages/GalleryPage/GalleryPage.tsx:65-72 | the gallery list is never longer than all result sets together |
| GalleryPage.MergeAllWellFormed | mp2/src/pages/GalleryPage/GalleryPage.tsx:65-70 | each `set` keeps the map's key order duplicate-free and in step with its keys |
| GalleryPage.MergeKeepsEveryId | mp2/src/pages/GalleryPage/GalleryPage.tsx:65-70 | the merged ids are exactly the ids of the input meals |
| GalleryPage.MergeOrdersByFirstSight | mp2/src/pages/GalleryPage/GalleryPage.tsx:65-72 | the merged ids appear in the order of their first occurrence |
| GalleryPage.MergeKeepsLastOccurrence | mp2/src/pages/GalleryPage/GalleryPage.tsx:66-70 | the value under an id is its last occurrence in set-then-item order |
| GalleryPage.MergedMeaning | mp2/src/pages/GalleryPage/GalleryPage.tsx:65-72 | the gallery list has no duplicate id, holds every id of the result sets, lists them by first appearance, and shows each id's last occurrence |
| GalleryPage.MergeResults | mp2/src/pages/GalleryPage/GalleryPage.tsx:65-72 | the nested loops that fill the `Map` produce exactly `Merged`, whose properties are proved above |
| GalleryPage.LaterCategoryWins | mp2/src/pages/GalleryPage/GalleryPage.tsx:66-70 | with a meal in two selected categories, the later category's copy is shown, at the position of the first |
| GalleryPage.FirstIndex | mp2/src/pages/GalleryPage/GalleryPage.tsx:65-72 | the first position of an id, or the length when it is absent |
| GalleryPage.FirstIndexIsFirst | mp2/src/pages/GalleryPage/GalleryPage.tsx:65-72 | no earlier position holds that id |
| GalleryPage.LastWith | mp2/src/pages/GalleryPage/GalleryPage.tsx:66-70 | the meal found has the id and is one of the input meals |
| GalleryPage.FetchAll | mp2/src/pages/GalleryPage/GalleryPage.tsx:55-59 | the batch fails exactly when some category request fails; otherwise it holds each category's results in selection order |
| GalleryPage.Without | mp2/src/pages/GalleryPage/GalleryPage.tsx:97 | filtering never lengthens the selection and leaves no occurrence of the category |
| GalleryPage.WithoutKeepsOthers | mp2/src/pages/GalleryPage/GalleryPage.tsx:97 | every other category keeps its number of occurrences |
| GalleryPage.WithoutAppend | mp2/src/pages/GalleryPage/GalleryPage.tsx:97 | filtering works element by element and keeps the order of what remains: the filter of a concatenation is the concatenation of the filters |
| GalleryPage.WithoutAbsent | mp2/src/pages/GalleryPage/GalleryPage.tsx:97 | filtering out an absent category changes nothing |
| GalleryPage.Toggled | mp2/src/pages/GalleryPage/GalleryPage.tsx:94-101 | the category's membership flips; an absent one is appended at the end; a present one is filtered out with `Without`, which keeps the others in order; every other category is kept as often as before |
| GalleryPage.ToggleTwiceRestores | mp2/src/pages/GalleryPage/GalleryPage.tsx:94-101 | toggling an absent category twice restores the selection |
| GalleryPage.GalleryView.Links | mp2/src/pages/GalleryPage/GalleryPage.tsx:146-151 | `LinkStates` over the view's meals with origin `gallery`: link k carries index k and the full id list, whose entry k is the k-th meal's id |
| GalleryPage.GalleryView.constructor | mp2/src/pages/GalleryPage/GalleryPage.tsx:8-12 | every state cell starts empty, with no error |
| GalleryPage.GalleryView.LoadCategories | mp2/src/pages/GalleryPage/GalleryPage.tsx:14-41 | a loaded list is stored and, when non-empty, its first category becomes the whole selection; a failure only sets the error |
| GalleryPage.GalleryView.HandleCategoryToggle | mp2/src/pages/GalleryPage/GalleryPage.tsx:94-101 | the selection becomes its toggle |
| GalleryPage.GalleryView.RefreshMeals | mp2/src/pages/GalleryPage/GalleryPage.tsx:43-92 | an empty selection clears the meals without a request and keeps the error; otherwise the error clears and the meals become the merge of all results, or on any failure `[]` with the error set |
| MealDetailPage.Bind | mp2/src/pages/MealDetailPage/MealDetailPage.tsx:26-35 | a context is bound exactly when the location state has a list and an index, and it carries that list, index and origin |
| MealDetailPage.JsRem | mp2/src/pages/MealDetailPage/MealDetailPage.tsx:100 | JavaScript's `%` on a positive divisor lies strictly between -n and n |
| MealDetailPage.JsDivision | mp2/src/pages/MealDetailPage/MealDetailPage.tsx:100 | the truncated quotient and remainder recompose the dividend |
| MealDetailPage.NextIndex | mp2/src/pages/MealDetailPage/MealDetailPage.tsx:100 | the next index lies in [0, n) for any index and offset, even an out-of-range index |
| MealDetailPage.NextIndexIsMod | mp2/src/pages/MealDetailPage/MealDetailPage.tsx:100 | the double-`%` expression equals the mathematical modulus of index + offset |
| MealDetailPage.StepsCompose | mp2/src/pages/MealDetailPage/MealDetailPage.tsx:100 | two steps are one step by the summed offset |
| MealDetailPage.StepThenBack | mp2/src/pages/MealDetailPage/MealDetailPage.tsx:100 | from an in-range index, stepping by o and then by -o returns to the start |
| MealDetailPage.SingletonStepsToItself | mp2/src/pages/MealDetailPage/MealDetailPage.tsx:100 | on a one-entry list every step lands on index 0 |
| MealDetailPage.Step | mp2/src/pages/MealDetailPage/MealDetailPage.tsx:90-119 | no move without a context, with an empty list, or onto an empty id; a move replaces only the index, which is the wrapped sum, and targets that list entry |
| MealDetailPage.WalkIndex | mp2/src/pages/MealDetailPage/MealDetailPage.tsx:100-113 | k presses keep the list and origin and advance the index by k times the offset, wrapped |
| MealDetailPage.FullCycleReturns | mp2/src/pages/MealDetailPage/MealDetailPage.tsx:100-113 | n presses of Next (or of Prev) on an n-entry list return to the start |
| MealDetailPage.StepAndStepBack | mp2/src/pages/MealDetailPage/MealDetailPage.tsx:90-119 | Next then Prev (or Prev then Next) returns to the starting context and its meal |
| MealDetailPage.WrapExample | mp2/src/pages/MealDetailPage/MealDetailPage.tsx:100 | on `["1","2","3"]` at index 2, Next wraps to index 0 and Prev from there wraps back to 2 |
| MealDetailPage.NavigationDisabled | mp2/src/pages/MealDetailPage/MealDetailPage.tsx:133 | when the buttons are disabled, neither Next nor Prev would move |
| MealDetailPage.CanNavigate | mp2/src/pages/MealDetailPage/MealDetailPage.tsx:132 | the "keep browsing" condition implies the buttons are enabled |
| MealDetailPage.ControlsMatchSteps | mp2/src/pages/MealDetailPage/MealDetailPage.tsx:132-133 | a disabled control is a no-op, an enabled one always moves when no id is empty, and the "keep browsing" hint shows exactly for a one-entry list |
| MealDetailPage.SplitLines | mp2/src/pages/MealDetailPage/MealDetailPage.tsx:127 | splitting on newline runs gives at least one piece and no piece holds a newline |
| MealDetailPage.SplitLinesOfJoined | mp2/src/pages/MealDetailPage/MealDetailPage.tsx:127 | splitting clean lines joined by single newlines gives them back |
| MealDetailPage.Paragraphs | mp2/src/pages/MealDetailPage/MealDetailPage.tsx:126-129 | every paragraph is non-empty, trimmed and newline-free |
| MealDetailPage.ParagraphsOfJoined | mp2/src/pages/MealDetailPage/MealDetailPage.tsx:126-129 | clean paragraphs joined by newlines come back unchanged and in order |
| MealDetailPage.Instructions | mp2/src/pages/MealDetailPage/MealDetailPage.tsx:121-130 | no meal or empty instructions give no paragraph, and every paragraph is non-empty, trimmed and newline-free |
| MealDetailPage.DetailView.constructor | mp2/src/pages/MealDetailPage/MealDetailPage.tsx:19-35 | the context is bound from the location state; no meal, no error, loading |
| MealDetailPage.DetailView.ReceiveLocationState | mp2/src/pages/MealDetailPage/MealDetailPage.tsx:37-45 | a payload with a list and an index rebinds the context; any other keeps it |
| MealDetailPage.DetailView.HandleNavigate | mp2/src/pages/MealDetailPage/MealDetailPage.tsx:90-119 | a blocked step changes nothing; a move stores the new index and navigates to its target with the same list and origin |
| MealDetailPage.DetailView.LoadMeal | mp2/src/pages/MealDetailPage/MealDetailPage.tsx:47-88 | no id does nothing; otherwise loading ends with the meal, with "not found", or with the fetch error |
| MealDetailPage.DetailView.InstructionParagraphs | mp2/src/pages/MealDetailPage/MealDetailPage.tsx:121-130 | `Instructions` over the view's record: none without a record, and every paragraph non-empty, trimmed and newline-free |
| MealDetailPage.NavigationRebindsStep | mp2/src/pages/MealDetailPage/MealDetailPage.tsx:115-118 | the navigation payload binds exactly the context the step produced |

## Left out

- The HTTP layer is left out: the axios instance, base URL, timeout and request plumbing. Each request is a function parameter returning a settled response.
- Debounce timers, `AbortController`, the `active` flags and scheduling are left out. Each effect is modelled once its responses have settled, as if it were still current.
- The `loading` and `initialLoading` flags of the list and gallery views are left out. They only choose status text.
- JSX, CSS and display strings are left out.
- Text.Lower: lower-cases ASCII letters only, because Unicode case mapping is outside the model.
- Text.Less: orders strings by code point. JavaScript orders by UTF-16 code unit, and the two differ only for characters above U+FFFF.
- URL parameters are a map from name to value. Percent-encoding and repeated names are not modelled.
- ListPage.SortMeals: `Array.prototype.sort`'s own algorithm is replaced by an insertion sort. The engine specifies a stable sort with a consistent comparator, so every conforming engine returns the same list.
- ListPage.ListView.LoadFeatured: the featured request's failure branch is not modelled, and neither is its message. `getRandomMeals` absorbs every rejected request, so for responses whose body is an object that branch cannot be reached. A fulfilled random response whose body is null is outside the model: there reading `meals` throws, `getRandomMeals` rejects, and the page would set the featured-meals error.
- `listMealCategories` is not modelled as a function. It passes the catalog's list through unchanged, so `GalleryView.LoadCategories` takes the settled list directly.
- A category list that arrives as null is not modelled. The source would throw while destructuring it and land in its error branch.
- The detail view's index is an integer. A non-integer or NaN index from a hand-written location state is not modelled.
- GalleryPage.ToggleTwiceRestores: covers an absent category only. Toggling a present category twice moves it to the end, and `Toggled` states that directly.
- `Promise.all` rejects with the first failure in time. `FetchAll` only says whether some request failed, since the view discards the reason.
- mp2/src/components/Layout/Layout.tsx, mp2/src/App.tsx and mp2/src/App.test.tsx are not part of this model. They hold markup, routes and a render test.
