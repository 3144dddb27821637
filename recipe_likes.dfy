/** `src/feature/recipes/useRecipeLikes.ts`: the hook's state for one
    signed-in user (or none), mirroring the recipe store in memory. `load`
    and `toggleLike` run to completion one at a time. */
module RecipeLikesHook {
  import opened Storage
  import opened Db
  import opened Affinity
  import opened RecipeStore

  /** The keys `toggleLike` increments in memory: the tags, the cuisine key
      or "", the meal keys, with every "" filtered out. */
  function MirrorKeys(recipe: Recipe): seq<string> {
    NonEmpty(recipe.tags + [if recipe.cuisine != "" then "cuisine:" + recipe.cuisine else ""] + MealKeys(recipe.mealType))
  }

  /** The in-memory keys are the store's keys exactly when no tag is "". */
  lemma MirrorKeysAgree(recipe: Recipe)
    ensures MirrorKeys(recipe) == AffinityKeys(recipe) <==> "" !in recipe.tags
  {
    var c := if recipe.cuisine != "" then "cuisine:" + recipe.cuisine else "";
    var meals := MealKeys(recipe.mealType);
    NonEmptyAppend(recipe.tags + [c], meals);
    NonEmptyAppend(recipe.tags, [c]);
    NonEmptyKeeps(meals);
    assert "" !in meals by {
      forall i | 0 <= i < |meals| ensures meals[i] != "" {
        assert |meals[i]| >= 5;
      }
    }
    if recipe.cuisine != "" {
      assert |c| > 0;
      assert NonEmpty([c]) == [c] by { NonEmptyKeeps([c]); }
    } else {
      assert NonEmpty([c]) == [];
    }
    NonEmptyKeeps(recipe.tags);
    if "" in recipe.tags {
      assert |NonEmpty(recipe.tags)| < |recipe.tags| by {
        if |NonEmpty(recipe.tags)| == |recipe.tags| {
          NonEmptyFull(recipe.tags);
        }
      }
    }
  }

  /** A recipe tagged "" raises the store's "" score, but not the mirror's:
      after liking it the in-memory map is not what a reload would read. */
  lemma EmptyTagDiverges(m: map<string, int>)
    ensures var recipe := Recipe([""], "", []);
      AddCounts(m, MirrorKeys(recipe)) != AddCounts(m, AffinityKeys(recipe))
  {
    var recipe := Recipe([""], "", []);
    assert MealKeys([]) == [];
    assert AffinityKeys(recipe) == [""];
    assert NonEmpty([""] + [""] + []) == [];
    AddCountsGet(m, MirrorKeys(recipe), "");
    AddCountsGet(m, AffinityKeys(recipe), "");
  }

  class RecipeLikes {
    /** The database the store functions use. */
    const db: Db
    /** The `userId` argument of the hook; `None` is `undefined`. */
    const userId: Option<int>
    var likedIds: set<int>
    var affinityScores: map<string, int>
    var isLoading: bool

    /** The state on first render. */
    constructor (db: Db, userId: Option<int>)
      ensures this.db == db && this.userId == userId
      ensures likedIds == {} && affinityScores == map[] && isLoading
    {
      this.db := db;
      this.userId := userId;
      likedIds, affinityScores, isLoading := {}, map[], true;
    }

    /** The mirror agrees with the store: the liked set is the set of the
        user's liked recipe ids (which has no repeats), and the affinity
        scores are what `getRecipeAffinityScores` would answer. */
    ghost predicate Synced()
      reads this, db
    {
      && db.Valid()
      && (userId.Some? ==>
            var ids := LikedIds(db.recipeLikes, userId.value);
            && NoDup(ids)
            && likedIds == IdSet(ids)
            && affinityScores == ScoreMap(ScoresOf(db.recipeAffinity.rows, userId.value)))
    }

    /** `load()`: both reads run together; a failed read rejects the whole
        load, which still ends with `isLoading` false. */
    method Load(fault: Fault) returns (out: Outcome)
      modifies this
      ensures !isLoading
      ensures userId.None? ==> out == Done && likedIds == {} && affinityScores == map[]
      ensures userId.Some? && fault.FailAt? ==>
        out == StorageError && likedIds == old(likedIds) && affinityScores == old(affinityScores)
      ensures userId.Some? && fault.NoFault? ==>
        && out == Done
        && likedIds == IdSet(LikedIds(db.recipeLikes, userId.value))
        && affinityScores == ScoreMap(ScoresOf(db.recipeAffinity.rows, userId.value))
      ensures db.Valid() && out == Done && (userId.Some? ==> NoDup(LikedIds(db.recipeLikes, userId.value))) ==> Synced()
    {
      if userId.None? {
        likedIds, affinityScores, isLoading := {}, map[], false;
        return Done;
      }
      isLoading := true;
      var ids := GetLikedRecipeIds(db, userId.value, fault);
      var scores := GetRecipeAffinityScores(db, userId.value, fault);
      if ids.Ok? && scores.Ok? {
        likedIds := IdSet(ids.value);
        affinityScores := scores.value;
        out := Done;
      } else {
        out := StorageError;
      }
      isLoading := false;
    }

    /** `toggleLike(recipe, currentlyLiked)`: the store call first; the mirror
        changes only once it has succeeded. The mirror stays in sync when no
        tag of the recipe is "". */
    method ToggleLike(recipeId: int, recipe: Recipe, currentlyLiked: bool, now: int, fault: Fault) returns (out: Outcome)
      requires db.Valid()
      modifies this`likedIds, this`affinityScores, db`recipeLikes, db`recipeAffinity
      ensures db.Valid()
      ensures userId.None? ==>
        && out == Done && likedIds == old(likedIds) && affinityScores == old(affinityScores)
        && db.recipeLikes == old(db.recipeLikes) && db.recipeAffinity == old(db.recipeAffinity)
      ensures userId.Some? && currentlyLiked ==>
        && LikeRemoved(old(db.recipeLikes), db.recipeLikes, out, userId.value, recipeId, fault)
        && db.recipeAffinity == old(db.recipeAffinity)
        && affinityScores == old(affinityScores)
        && likedIds == if out == Done then old(likedIds) - {recipeId} else old(likedIds)
      ensures userId.Some? && !currentlyLiked ==>
        && LikeWritten(old(db.recipeLikes), old(db.recipeAffinity), db.recipeLikes, db.recipeAffinity, out,
                       userId.value, recipeId, AffinityKeys(recipe), now, fault)
        && likedIds == (if out == Done then old(likedIds) + {recipeId} else old(likedIds))
        && affinityScores == (if out == Done then AddCounts(old(affinityScores), MirrorKeys(recipe)) else old(affinityScores))
      ensures old(Synced()) && currentlyLiked == (recipeId in old(likedIds)) && "" !in recipe.tags && out == Done ==> Synced()
    {
      if userId.None? {
        return Done;
      }
      var u := userId.value;
      if currentlyLiked {
        out := RemoveRecipeLike(db, u, recipeId, fault);
        if out == Done {
          likedIds := likedIds - {recipeId};
          if old(Synced()) {
            UnlikeMirrors(old(db.recipeLikes), db.recipeLikes, u, recipeId, fault);
          }
        }
      } else {
        out := AddRecipeLike(db, u, recipeId, recipe, now, fault);
        if out == Done {
          likedIds := likedIds + {recipeId};
          var keys := MirrorKeys(recipe);
          affinityScores := IncrementKeys(affinityScores, keys);
          if old(Synced()) && recipeId !in old(likedIds) && "" !in recipe.tags {
            LikeMirrors(old(db.recipeLikes), old(db.recipeAffinity), db.recipeLikes, db.recipeAffinity,
                        u, recipeId, AffinityKeys(recipe), now, fault);
            MirrorKeysAgree(recipe);
          }
        }
      }
    }
  }
}
