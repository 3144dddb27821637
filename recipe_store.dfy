/** `src/store/recipeStore.ts`: likes of recipes and the per-(user, key)
    affinity they feed, and the recipe recommender. A recipe's affinity keys
    are its tags, then `cuisine:<c>`, then `meal:<m>` for each meal type. */
module RecipeStore {
  import opened Storage
  import opened Db
  import opened Affinity
  import opened Recommender

  /** How many recipes the recommender returns at most. */
  const RECOMMENDED_COUNT: nat := 6

  /** The part of a recipe the affinity keys come from. An absent `tags` or
      `mealType` is the empty list (`?? []`); an absent `cuisine` is "", which
      is falsy like `undefined`. */
  datatype Recipe = Recipe(tags: seq<string>, cuisine: string, mealType: seq<string>)

  /** `meal:<m>` for each meal type, in order. */
  function MealKeys(mealType: seq<string>): (keys: seq<string>)
    ensures |keys| == |mealType|
    ensures forall i :: 0 <= i < |mealType| ==> keys[i] == "meal:" + mealType[i]
  {
    seq(|mealType|, i requires 0 <= i < |mealType| => "meal:" + mealType[i])
  }

  /** The keys `getAffinityKeys(recipe)` returns. */
  function AffinityKeys(recipe: Recipe): seq<string> {
    recipe.tags
      + (if recipe.cuisine != "" then ["cuisine:" + recipe.cuisine] else [])
      + MealKeys(recipe.mealType)
  }

  /** The tags come first and unchanged, then the cuisine key exactly when
      there is a cuisine, then one meal key per meal type, in order. */
  lemma AffinityKeysLayout(recipe: Recipe)
    ensures var keys := AffinityKeys(recipe);
      var c := if recipe.cuisine != "" then 1 else 0;
      && |keys| == |recipe.tags| + c + |recipe.mealType|
      && keys[..|recipe.tags|] == recipe.tags
      && (recipe.cuisine != "" ==> keys[|recipe.tags|] == "cuisine:" + recipe.cuisine)
      && (forall i :: 0 <= i < |recipe.mealType| ==>
            keys[|recipe.tags| + c + i] == "meal:" + recipe.mealType[i])
  {
    var keys := AffinityKeys(recipe);
    var c := if recipe.cuisine != "" then 1 else 0;
    var head := recipe.tags + (if recipe.cuisine != "" then ["cuisine:" + recipe.cuisine] else []);
    assert keys == head + MealKeys(recipe.mealType);
    assert keys[..|recipe.tags|] == recipe.tags;
    forall i | 0 <= i < |recipe.mealType|
      ensures keys[|recipe.tags| + c + i] == "meal:" + recipe.mealType[i]
    {
      assert keys[|head| + i] == MealKeys(recipe.mealType)[i];
    }
  }

  /** `getAffinityKeys(recipe)`: copy the tags, push the cuisine key, push a
      meal key per meal type. */
  method GetAffinityKeys(recipe: Recipe) returns (keys: seq<string>)
    ensures keys == AffinityKeys(recipe)
  {
    keys := recipe.tags;
    if recipe.cuisine != "" {
      keys := keys + ["cuisine:" + recipe.cuisine];
    }
    ghost var head := keys;
    var i := 0;
    while i < |recipe.mealType|
      invariant 0 <= i <= |recipe.mealType|
      invariant keys == head + MealKeys(recipe.mealType[..i])
    {
      assert MealKeys(recipe.mealType[..i + 1]) == MealKeys(recipe.mealType[..i]) + ["meal:" + recipe.mealType[i]];
      keys := keys + ["meal:" + recipe.mealType[i]];
      i := i + 1;
    }
    assert recipe.mealType[..i] == recipe.mealType;
  }

  /** `addRecipeLike(userId, recipeId, recipe)`; `now` is `Date.now()`. */
  method AddRecipeLike(db: Db, userId: int, recipeId: int, recipe: Recipe, now: int, fault: Fault) returns (out: Outcome)
    requires db.Valid()
    modifies db`recipeLikes, db`recipeAffinity
    ensures db.Valid()
    ensures LikeWritten(old(db.recipeLikes), old(db.recipeAffinity), db.recipeLikes, db.recipeAffinity, out,
                        userId, recipeId, AffinityKeys(recipe), now, fault)
  {
    var keys := GetAffinityKeys(recipe);
    var likes, scores;
    likes, scores, out := AddLike(db.recipeLikes, db.recipeAffinity, userId, recipeId, keys, now, fault);
    db.recipeLikes, db.recipeAffinity := likes, scores;
  }

  /** `removeRecipeLike(userId, recipeId)`: the affinity rows are not touched. */
  method RemoveRecipeLike(db: Db, userId: int, recipeId: int, fault: Fault) returns (out: Outcome)
    requires db.Valid()
    modifies db`recipeLikes
    ensures db.Valid()
    ensures LikeRemoved(old(db.recipeLikes), db.recipeLikes, out, userId, recipeId, fault)
  {
    db.recipeLikes, out := RemoveLike(db.recipeLikes, userId, recipeId, fault);
  }

  /** `getLikedRecipeIds(userId)`. */
  method GetLikedRecipeIds(db: Db, userId: int, fault: Fault) returns (r: Result<seq<int>>)
    ensures r == (if fault.FailAt? then Failed else Ok(LikedIds(db.recipeLikes, userId)))
  {
    r := GetLikedIds(db.recipeLikes, userId, fault);
  }

  /** `getRecipeAffinityScores(userId)`: each key the user has a row for,
      mapped to the sum of those rows' scores. */
  method GetRecipeAffinityScores(db: Db, userId: int, fault: Fault) returns (r: Result<map<string, int>>)
    ensures fault.FailAt? <==> r.Failed?
    ensures r.Ok? ==> r.value == ScoreMap(ScoresOf(db.recipeAffinity.rows, userId))
    ensures r.Ok? ==> forall k :: (k in r.value <==> Present(db.recipeAffinity.rows, userId, k))
    ensures r.Ok? ==> forall k :: Get0(r.value, k) == Total(db.recipeAffinity.rows, userId, k)
  {
    r := GetScores(db.recipeAffinity, userId, fault);
  }

  /** `recipe ? getAffinityKeys(recipe) : []` for the recipe with id `id`. */
  function KeysOf(recipesById: map<int, Recipe>): int -> seq<string> {
    id => if id in recipesById then AffinityKeys(recipesById[id]) else []
  }

  /** The affinity score of recipe `id`. */
  function RecipeScore(recipesById: map<int, Recipe>, affinityScores: map<string, int>, id: int): int {
    Score(affinityScores, KeysOf(recipesById), id)
  }

  /** `scoreRecipesByAffinity(recipeIds, recipesById, affinityScores, likedSet)`:
      at most six recipes from `recipeIds`, none liked, none missing from
      `recipesById`, each with a positive affinity score, in non-increasing
      score order. */
  function ScoreRecipesByAffinity(recipeIds: seq<int>, recipesById: map<int, Recipe>, affinityScores: map<string, int>, likedSet: set<int>): (r: seq<int>)
    ensures |r| <= RECOMMENDED_COUNT
    ensures forall i :: 0 <= i < |r| ==>
      && r[i] in recipeIds && r[i] !in likedSet && r[i] in recipesById
      && RecipeScore(recipesById, affinityScores, r[i]) > 0
    ensures forall i, j :: 0 <= i < j < |r| ==>
      RecipeScore(recipesById, affinityScores, r[i]) >= RecipeScore(recipesById, affinityScores, r[j])
  {
    var r := Recommend(recipeIds, KeysOf(recipesById), affinityScores, likedSet, RECOMMENDED_COUNT);
    RecommendSound(recipeIds, KeysOf(recipesById), affinityScores, likedSet, RECOMMENDED_COUNT);
    assert forall id :: id !in recipesById ==> RecipeScore(recipesById, affinityScores, id) == 0;
    r
  }
}
