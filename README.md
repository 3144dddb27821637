# Like-driven affinity recommendations, in Dafny

This project models the client-side recommendation core of `ui-recommendation`.
The core is a React/TypeScript app that keeps its state in IndexedDB.

- **Likes.** A signed-in user likes posts, recipes and products. Each like
  appends a row to a like table.
- **Affinity scores.** Each like also raises a per-(user, key) score by a
  read-modify-write: the first existing row gets +1, otherwise a row with
  score 1 is added. A post's keys are its tags. A recipe's keys are its tags,
  then `cuisine:<c>`, then `meal:<m>` for each meal type. A product's keys
  are `category:<c>`, then its tags.
- **Recommenders.** A pure ranker drops liked ids and sums each candidate's
  key scores. It drops candidates scoring 0, sorts by descending score with a
  stable sort and keeps the first 6.
- **User selection.** An append-only log records which user was chosen on
  this device. The most chosen users are ranked by count and the top 3 kept.
- **Device id.** A lazily created identifier lives in one local-storage slot.
- **Like hooks.** Three hooks keep an in-memory mirror of one user's store:
  a liked-id set, a score map and an `isLoading` flag.

Layout (one Dafny module per file):

| file | module | models |
|---|---|---|
| `storage.dfy` | `Storage` | an IndexedDB object store with an auto-incremented key; write failures (`Fault`) |
| `db.dfy` | `Db` | the row shapes and the seven object stores of the database |
| `ranking.dfy` | `Ranking` | the engine's stable `sort` by descending score, and `slice(0, n)` |
| `affinity.dfy` | `Affinity` | what the three affinity stores share: like rows, score rows, the add/remove/read operations, the in-memory increments |
| `recommender.dfy` | `Recommender` | the ranker the three `score*ByAffinity` functions share |
| `post_store.dfy`, `recipe_store.dfy`, `product_store.dfy` | `PostStore`, `RecipeStore`, `ProductStore` | the three store files |
| `user_selection_store.dfy` | `UserSelectionStore` | the selection log and the top-3 ranking |
| `device_id.dfy` | `DeviceId` | the device-id slot |
| `post_likes.dfy`, `recipe_likes.dfy`, `product_likes.dfy` | `PostLikesHook`, `RecipeLikesHook`, `ProductLikesHook` | the three like hooks, as classes |

Modelling choices:

- **Tables.** An object store is a sequence of rows in primary-key order,
  plus the next key. `getAllFromIndex(t, index, v)` returns the rows whose
  indexed field equals `v`, in key order.
- **The database.** `Db.Db` is an object whose fields are the seven tables.
  Store operations are methods that replace the fields they write, and their
  `modifies` clauses name only those fields. So "removing a like never
  touches the scores" is a frame condition.
- **Failures.** Each writing operation takes a `Fault`. Under `FailAt(n)`,
  writes `0 .. n-1` are applied and then the operation fails with
  `StorageError`. `add*Like` issues write 0 for the like row and write `1+i`
  for key `i`. So a failure partway leaves a prefix of the keys applied, as
  the source does. A read-only operation fails under any `FailAt`.
- **Nondeterminism.** `Date.now()`, `crypto.randomUUID()` and
  `Math.random().toString(36)` are parameters.
- **Hooks.** The hooks are classes with fields `likedIds`, the score map and
  `isLoading`. `Load` and `ToggleLike` are methods that run to completion.
  `ToggleLike` changes the mirror only after its store call succeeds, because
  the `await` comes first. The predicate `Synced()` says the mirror equals
  what a reload would read. It is preserved by every successful toggle whose
  `currentlyLiked` is the truth, which is how the pages call it. For
  recipes and products it also needs no tag to be "".
- **Empty-string keys.** The recipe and product hooks drop "" from the keys
  they increment (`.filter(Boolean)`); the stores do not. The model proves
  the two key lists agree exactly when no tag is "". It also proves that a
  product or recipe tagged "" leaves the mirror different from the store
  (`EmptyTagDiverges`).
- **Equal selection counts.** The count `Map` keeps first-insertion order
  and the engine's `sort` is stable, so ties come out in order of first
  selection (`UserSelectionStore.TopUsersSound`).

## Model

| member | source | states |
|---|---|---|
| Storage.Add | src/store/postStore.ts:10 | `add` appends one row last, under a key no other row has, and leaves every earlier row unchanged |
| Storage.Put | src/store/postStore.ts:20-25 | `put` on an existing key replaces that row's value in place; every other row is unchanged |
| Storage.Delete | src/store/postStore.ts:38 | `delete` removes exactly the row with that key; a missing key leaves the table unchanged |
| Db.Db.constructor | src/lib/db.ts:32-90 | a new database has seven well-formed, empty object stores, whose score tables hold at most one row per (user, key) |
| Ranking.SortByScore | src/store/postStore.ts:78 | the sort returns a permutation of its input, in non-increasing score order |
| Ranking.SortStable | src/store/postStore.ts:78 | the sort is stable: for every score, the elements with that score keep their input order |
| Ranking.Take | src/store/postStore.ts:79 | `slice(0, n)` gives a prefix of length n, or the whole input when it is shorter |
| Ranking.TakeWithScore | src/store/postStore.ts:79 | the slice keeps, for every score, a prefix of the elements with that score |
| Ranking.SortRanked | src/store/userSelectionStore.ts:33 | sorting input whose ids have strictly increasing rank orders equal scores by that rank |
| Affinity.LikesOfMembers | src/store/postStore.ts:43 | the `by_user` scan yields exactly the like rows of that user |
| Affinity.LikedIdsAfterAdd | src/store/postStore.ts:10 | a like puts the id last in that user's liked ids, even when already liked, and changes no other user's |
| Affinity.FindLikeIds | src/store/postStore.ts:35 | `find` finds a row exactly when the id is among the user's liked ids |
| Affinity.RemoveLikeEffect | src/store/postStore.ts:32-39 | removal drops the first occurrence of the id from that user's liked ids, touches no other user's rows, and is a no-op when the id is not liked |
| Affinity.KeyRowsPresent | src/store/postStore.ts:13-18 | the `by_user_tag` scan is non-empty exactly when a row for (user, key) exists |
| Affinity.BumpedRow | src/store/postStore.ts:13-25 | when the user has a row for the key, one key step puts such a row back with its score raised by 1, under the same primary key, user and key; every other row is unchanged |
| Affinity.BumpAppends | src/store/postStore.ts:26-28 | when the user has no row for the key, one key step appends (user, key, 1) under a fresh primary key and changes no row |
| Affinity.BumpAllUnique | src/store/postStore.ts:12-29 | the key loop keeps at most one score row per (user, key): it never adds a second row for a pair that has one |
| Affinity.BumpAllTotal | src/store/postStore.ts:12-29 | after the key loop, the score of (user, k) has risen by the number of times k is listed, and every other user's scores are unchanged |
| Affinity.BumpAllPresent | src/store/postStore.ts:12-29 | after the key loop, a (user, k) row exists exactly when it existed before or k is listed |
| Affinity.ScoreMapTotals | src/store/postStore.ts:47-55 | the score map holds exactly the keys the user has rows for, each mapped to the sum of those rows' scores |
| Affinity.BumpKey | src/store/postStore.ts:13-28 | the read of the composite index then the put or add is one key step |
| Affinity.AddLike | src/store/postStore.ts:3-30 | adds the like row, then raises each key in order; a rejected write stops it with the earlier writes applied; at most one score row per (user, key) is kept |
| Affinity.RemoveLike | src/store/postStore.ts:32-39 | deletes the first like row of the user for the id, if any; that delete is its only write |
| Affinity.GetLikedIds | src/store/postStore.ts:41-45 | answers the liked id of every like row of the user, in key order, duplicates included |
| Affinity.GetScores | src/store/postStore.ts:47-55 | answers, for each key, presence exactly when the user has a row for it and the sum of those rows' scores |
| Affinity.AddCountsGet | src/feature/posts/usePostLikes.ts:52-58 | the in-memory increments raise each key by its number of occurrences and add exactly the listed keys |
| Affinity.IncrementKeys | src/feature/posts/usePostLikes.ts:52-58 | the increment loop raises each key's count by its occurrences in the list, leaving other keys as they were |
| Affinity.LikeMirrorsStore | src/feature/posts/usePostLikes.ts:50-58 | the in-memory increments of a like equal the change in the score map the store then answers |
| Affinity.RemoveFirstNoDup | src/feature/posts/usePostLikes.ts:44-48 | without repeats, dropping the first occurrence of an id drops it from the set |
| Affinity.UnlikeMirrors | src/feature/posts/usePostLikes.ts:42-48 | a successful unlike removes exactly that id from the set of the user's liked ids |
| Affinity.LikeMirrors | src/feature/posts/usePostLikes.ts:49-58 | a successful like of a new id adds exactly that id to the liked set, and the in-memory increments give the store's new score map |
| Affinity.NonEmptyKeeps | src/feature/recipes/useRecipeLikes.ts:55 | `.filter(Boolean)` leaves a key list unchanged exactly when no key is "" |
| Recommender.KeyScoreUnknown | src/store/postStore.ts:72-74 | keys missing from the score map add nothing, so an id without keys scores 0 |
| Recommender.KeyScoreMonotonic | src/store/postStore.ts:74 | raising map entries never lowers a candidate's score |
| Recommender.KeyScoreAfterLike | src/feature/posts/usePostLikes.ts:52-58 | after the in-memory increments, a candidate's score rises by the number of its keys' occurrences in the liked keys |
| Recommender.CandidatesMembers | src/store/postStore.ts:69-77 | the candidates are exactly the unliked input ids with a positive score, each paired with that score |
| Recommender.Ranked | src/store/postStore.ts:78-79 | at most `cap` candidates are kept |
| Recommender.RecommendSound | src/store/postStore.ts:69-80 | each result comes from the input, is not liked and scores above 0; at most `cap`, in non-increasing score order |
| Recommender.RecommendTop | src/store/postStore.ts:78-79 | an eligible id left out means the result is full and every returned id scores at least as much |
| Recommender.RecommendTies | src/store/postStore.ts:78 | for each score, the returned candidates with that score are the first ones with that score, in input order |
| PostStore.AddPostLike | src/store/postStore.ts:3-30 | writes only the post-like and tag-score tables: one like row, then each tag raised in order, with a failure leaving a prefix; the database stays valid, with at most one score row per (user, tag) |
| PostStore.RemovePostLike | src/store/postStore.ts:32-39 | writes only the post-like table: deletes the first matching like row of the user, if any |
| PostStore.GetLikedPostIds | src/store/postStore.ts:41-45 | the post ids of the user's like rows, in key order |
| PostStore.GetPostTagScores | src/store/postStore.ts:47-55 | each tag the user has rows for, mapped to the sum of their scores |
| PostStore.ScorePostsByTagAffinity | src/store/postStore.ts:57-83 | at most 6 ids from the input, none liked, none missing from `postsById`, each with a positive tag score, in non-increasing score order |
| PostStore.LikeOnEmptyStore | src/store/postStore.ts:3-55 | on an empty database, liking post 10 tagged tech and ai gives liked ids [10] and scores {tech: 1, ai: 1} |
| PostStore.RecommendAfterTwoLikes | src/store/postStore.ts:63-83 | with tech at 2, food at 1 and posts 10 and 11 liked, candidates 10, 11 and 12 yield [12] |
| PostStore.UnlikeAfterLike | src/store/postStore.ts:32-45 | unliking the only liked post empties the liked ids |
| RecipeStore.MealKeys | src/store/recipeStore.ts:11 | one `meal:<m>` key per meal type, in order |
| RecipeStore.AffinityKeysLayout | src/store/recipeStore.ts:8-13 | keys are the tags, then `cuisine:<c>` exactly when the cuisine is non-empty, then the meal keys; length \|tags\| + (cuisine ? 1 : 0) + \|mealType\| |
| RecipeStore.GetAffinityKeys | src/store/recipeStore.ts:8-13 | the push loop builds the affinity keys of the recipe |
| RecipeStore.AddRecipeLike | src/store/recipeStore.ts:15-41 | writes only the recipe-like and affinity tables: one like row, then each affinity key raised in order; at most one score row per (user, key) is kept |
| RecipeStore.RemoveRecipeLike | src/store/recipeStore.ts:43-50 | writes only the recipe-like table: deletes the first matching like row, if any |
| RecipeStore.GetLikedRecipeIds | src/store/recipeStore.ts:52-56 | the recipe ids of the user's like rows, in key order |
| RecipeStore.GetRecipeAffinityScores | src/store/recipeStore.ts:58-66 | each key the user has rows for, mapped to the sum of their scores |
| RecipeStore.ScoreRecipesByAffinity | src/store/recipeStore.ts:68-88 | at most 6 ids from the input, none liked, none missing from `recipesById`, each with a positive affinity score, in non-increasing score order |
| ProductStore.AffinityKeysLayout | src/store/productStore.ts:8-13 | keys are `category:<c>` exactly when the category is non-empty, then the tags; length (category ? 1 : 0) + \|tags\| |
| ProductStore.GetAffinityKeys | src/store/productStore.ts:8-13 | the push loop builds the affinity keys of the product |
| ProductStore.AddProductLike | src/store/productStore.ts:15-41 | writes only the product-like and affinity tables: one like row, then each affinity key raised in order; at most one score row per (user, key) is kept |
| ProductStore.RemoveProductLike | src/store/productStore.ts:43-50 | writes only the product-like table: deletes the first matching like row, if any |
| ProductStore.GetLikedProductIds | src/store/productStore.ts:52-56 | the product ids of the user's like rows, in key order |
| ProductStore.GetProductAffinityScores | src/store/productStore.ts:58-66 | each key the user has rows for, mapped to the sum of their scores |
| ProductStore.ScoreProductsByAffinity | src/store/productStore.ts:68-88 | at most 6 ids from the input, none liked, none missing from `productsById`, each with a positive affinity score, in non-increasing score order |
| UserSelectionStore.RecordUserSelection | src/store/userSelectionStore.ts:6-13 | appends one row (this device's id, the chosen user, the time) and nothing else |
| UserSelectionStore.SelectionsAfterRecord | src/store/userSelectionStore.ts:6-22 | a recorded selection shows up last among its own device's selections and nowhere else |
| Ranking.Occurrences | src/store/userSelectionStore.ts:25-29 | a count never exceeds the length, and is 0 exactly when the value does not occur (a user never chosen, a key not listed) |
| UserSelectionStore.FirstIndex | src/store/userSelectionStore.ts:25-29 | the first-choice position is within the log exactly for a chosen user, and holds that user |
| UserSelectionStore.FirstIndexFirst | src/store/userSelectionStore.ts:25-29 | no earlier position holds that user |
| UserSelectionStore.CountsCorrect | src/store/userSelectionStore.ts:25-29 | the count map has one entry per chosen user with its exact count, in order of first choice |
| UserSelectionStore.CountByUser | src/store/userSelectionStore.ts:25-29 | the counting loop builds that count map |
| UserSelectionStore.TopUsersSound | src/store/userSelectionStore.ts:31-37 | at most 3 distinct users, all chosen on the device, by descending count with ties in first-choice order; empty exactly when nobody was chosen |
| UserSelectionStore.TopUsersComplete | src/store/userSelectionStore.ts:31-37 | a chosen user left out means 3 users were returned, each chosen at least as often |
| UserSelectionStore.FiveThenThree | src/store/userSelectionStore.ts:15-38 | no selections give []; selections 5, 5, 3, 5, 3 give [5, 3] |
| UserSelectionStore.GetRecommendedUserIds | src/store/userSelectionStore.ts:15-38 | reads the device id, then ranks only that device's selections |
| DeviceId.Decimal | src/lib/deviceId.ts:9 | a non-empty string of decimal digits |
| DeviceId.Slice | src/lib/deviceId.ts:9 | `slice(from, to)` is the exact substring when `to` is within the string, the suffix from `from` when only `from` is, and "" when `from` is past the end; so the fallback id takes characters 2 to 10 of the base-36 random string, exactly 9 of them when it is long enough |
| DeviceId.FreshId | src/lib/deviceId.ts:6-9 | a generated id is non-empty: the UUID when available, otherwise it starts with `dev_` |
| DeviceId.ReadOrCreate | src/lib/deviceId.ts:3-13 | a non-empty stored value is returned as it is; the result is never empty |
| DeviceId.Stored | src/lib/deviceId.ts:4-11 | afterwards the slot holds the returned id; no other key changes |
| DeviceId.SecondCallSame | src/lib/deviceId.ts:3-13 | a second call returns the same id and writes nothing, whatever entropy it gets |
| DeviceId.GetDeviceId | src/lib/deviceId.ts:3-13 | returns the non-empty id now in the slot, writing only when the slot was missing or "" |
| DeviceId.LocalStorage.constructor | src/lib/deviceId.ts:4 | local storage starts empty |
| PostLikesHook.PostLikes.constructor | src/feature/posts/usePostLikes.ts:10-12 | first render: empty set, empty map, loading |
| PostLikesHook.PostLikes.Load | src/feature/posts/usePostLikes.ts:14-32 | no user: empty state; otherwise the store's ids as a set and its score map, or unchanged state when a read fails; never loading afterwards |
| PostLikesHook.PostLikes.ToggleLike | src/feature/posts/usePostLikes.ts:38-62 | no user: no-op; unlike: removes the id, scores untouched; like: adds the id and counts each tag once per occurrence; nothing changes in memory when the store call fails; keeps `Synced` |
| RecipeLikesHook.MirrorKeysAgree | src/feature/recipes/useRecipeLikes.ts:55 | the in-memory keys equal the store's affinity keys exactly when no tag is "" |
| RecipeLikesHook.EmptyTagDiverges | src/feature/recipes/useRecipeLikes.ts:51-57 | a recipe tagged "" is counted by the store but not by the mirror |
| RecipeLikesHook.RecipeLikes.constructor | src/feature/recipes/useRecipeLikes.ts:11-13 | first render: empty set, empty map, loading |
| RecipeLikesHook.RecipeLikes.Load | src/feature/recipes/useRecipeLikes.ts:15-33 | no user: empty state; otherwise the store's ids as a set and its score map, or unchanged state when a read fails; never loading afterwards |
| RecipeLikesHook.RecipeLikes.ToggleLike | src/feature/recipes/useRecipeLikes.ts:39-62 | no user: no-op; unlike: removes the id, scores untouched; like: adds the id and counts the filtered keys; nothing changes in memory when the store call fails; keeps `Synced` when no tag is "" |
| ProductLikesHook.MirrorKeysAgree | src/feature/products/useProductLikes.ts:55 | the in-memory keys equal the store's affinity keys exactly when no tag is "" |
| ProductLikesHook.EmptyTagDiverges | src/feature/products/useProductLikes.ts:51-57 | a product tagged "" is counted by the store but not by the mirror |
| ProductLikesHook.ProductLikes.constructor | src/feature/products/useProductLikes.ts:11-13 | first render: empty set, empty map, loading |
| ProductLikesHook.ProductLikes.Load | src/feature/products/useProductLikes.ts:15-33 | no user: empty state; otherwise the store's ids as a set and its score map, or unchanged state when a read fails; never loading afterwards |
| ProductLikesHook.ProductLikes.ToggleLike | src/feature/products/useProductLikes.ts:39-62 | no user: no-op; unlike: removes the id, scores untouched; like: adds the id and counts the filtered keys; nothing changes in memory when the store call fails; keeps `Synced` when no tag is "" |

The three store files contain the same add, remove and read code. The
shared members in `Affinity` and `Recommender` cite the lines in
`postStore.ts`. The same lines in `recipeStore.ts` and `productStore.ts`
(15-88) say the same thing.

## Left out

- src/lib/db.ts is modelled only by its effect: seven tables that start empty. Opening the database, version upgrades and the cached open promise are not part of this model.
- Async interleaving is not modelled. Each store operation and each hook method runs to completion before the next starts, so there are no races between the awaits of the key loop. React's deferred state updates are applied at once. `useEffect` calling `load` on mount and on a user change is left to the caller.
- Reads inside a writing operation never fail in the model: the composite-index read in `add*Like`, the `by_user` read in `remove*Like`, and `getDb()`. Only writes are rejected. A read-only operation fails as a whole.
- The two reads of `load` run under one `Fault`. Either both succeed or the load rejects. In the source, one read can fail while the other succeeds; the hook's effect is the same.
- JavaScript numbers are unbounded integers here. Overflow past 2^53, `NaN` ids and the float result of `b.score - a.score` are not modelled. On integers that comparator sorts by descending score.
- The insertion order of the hooks' in-memory score `Map`s is not modelled; they are Dafny maps. Nothing reads that order. The counting `Map` of the user-selection store is modelled with its order.
- The `refresh: load` export of the post hook is the same `Load` method.
- The format of `Math.random().toString(36)` is not modelled; that string is a parameter. `crypto.randomUUID()` is assumed to return 36 characters.
- `localStorage` throwing (disabled storage, quota) is not modelled.
- The UI pages, authentication, HTTP fetching and the login flow are not part of this model. That includes the best-effort handling of `recordUserSelection` failures by its caller.
- Optional fields (`tags?`, `cuisine?`, `mealType?`, `category?`) are plain fields here. A missing one is the empty sequence or "", which the source's `?? []` and truthiness tests treat the same way.
- The hooks' `toggleLike(recipe, ...)` and `toggleLike(product, ...)` read `recipe.id` and `product.id`. The model passes that id as its own parameter, next to the entity's key fields.
- The recommenders may return an id twice when the input list repeats it, as the source does. No contract excludes that.
