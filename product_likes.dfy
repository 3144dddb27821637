/** `src/feature/products/useProductLikes.ts`: the hook's state for one
    signed-in user (or none), mirroring the product store in memory. `load`
    and `toggleLike` run to completion one at a time. */
module ProductLikesHook {
  import opened Storage
  import opened Db
  import opened Affinity
  import opened ProductStore

  /** The keys `toggleLike` increments in memory: the category key or "",
      then the tags, with every "" filtered out. */
  function MirrorKeys(product: Product): seq<string> {
    NonEmpty([if product.category != "" then "category:" + product.category else ""] + product.tags)
  }

  /** The in-memory keys are the store's keys exactly when no tag is "". */
  lemma MirrorKeysAgree(product: Product)
    ensures MirrorKeys(product) == AffinityKeys(product) <==> "" !in product.tags
  {
    var c := if product.category != "" then "category:" + product.category else "";
    NonEmptyAppend([c], product.tags);
    if product.category != "" {
      assert |c| > 0;
      assert NonEmpty([c]) == [c] by { NonEmptyKeeps([c]); }
    } else {
      assert NonEmpty([c]) == [];
    }
    NonEmptyKeeps(product.tags);
    if "" in product.tags {
      assert |NonEmpty(product.tags)| < |product.tags| by {
        if |NonEmpty(product.tags)| == |product.tags| {
          NonEmptyFull(product.tags);
        }
      }
    }
  }

  /** A product tagged "" raises the store's "" score, but not the mirror's:
      after liking it the in-memory map is not what a reload would read. */
  lemma EmptyTagDiverges(m: map<string, int>)
    ensures var product := Product("", [""]);
      AddCounts(m, MirrorKeys(product)) != AddCounts(m, AffinityKeys(product))
  {
    var product := Product("", [""]);
    assert AffinityKeys(product) == [""];
    assert NonEmpty([""] + [""]) == [];
    AddCountsGet(m, MirrorKeys(product), "");
    AddCountsGet(m, AffinityKeys(product), "");
  }

  class ProductLikes {
    /** The database the store functions use. */
    const db: Db
    /** The `userId` argument of the hook; `None` is `undefined`. */
    const userId: Option<int>
    var likedIds: set<int>
    var affinityScores: map<string, int>
    var isLoading: bool

    /** The state on first render. */
    constructor (db: Db, userId: Option<int>)
      ensures this.db == db && this.userId == userId
      ensures likedIds == {} && affinityScores == map[] && isLoading
    {
      this.db := db;
      this.userId := userId;
      likedIds, affinityScores, isLoading := {}, map[], true;
    }

    /** The mirror agrees with the store: the liked set is the set of the
        user's liked product ids (which has no repeats), and the affinity
        scores are what `getProductAffinityScores` would answer. */
    ghost predicate Synced()
      reads this, db
    {
      && db.Valid()
      && (userId.Some? ==>
            var ids := LikedIds(db.productLikes, userId.value);
            && NoDup(ids)
            && likedIds == IdSet(ids)
            && affinityScores == ScoreMap(ScoresOf(db.productAffinity.rows, userId.value)))
    }

    /** `load()`: both reads run together; a failed read rejects the whole
        load, which still ends with `isLoading` false. */
    method Load(fault: Fault) returns (out: Outcome)
      modifies this
      ensures !isLoading
      ensures userId.None? ==> out == Done && likedIds == {} && affinityScores == map[]
      ensures userId.Some? && fault.FailAt? ==>
        out == StorageError && likedIds == old(likedIds) && affinityScores == old(affinityScores)
      ensures userId.Some? && fault.NoFault? ==>
        && out == Done
        && likedIds == IdSet(LikedIds(db.productLikes, userId.value))
        && affinityScores == ScoreMap(ScoresOf(db.productAffinity.rows, userId.value))
      ensures db.Valid() && out == Done && (userId.Some? ==> NoDup(LikedIds(db.productLikes, userId.value))) ==> Synced()
    {
      if userId.None? {
        likedIds, affinityScores, isLoading := {}, map[], false;
        return Done;
      }
      isLoading := true;
      var ids := GetLikedProductIds(db, userId.value, fault);
      var scores := GetProductAffinityScores(db, userId.value, fault);
      if ids.Ok? && scores.Ok? {
        likedIds := IdSet(ids.value);
        affinityScores := scores.value;
        out := Done;
      } else {
        out := StorageError;
      }
      isLoading := false;
    }

    /** `toggleLike(product, currentlyLiked)`: the store call first; the mirror
        changes only once it has succeeded. The mirror stays in sync when no
        tag of the product is "". */
    method ToggleLike(productId: int, product: Product, currentlyLiked: bool, now: int, fault: Fault) returns (out: Outcome)
      requires db.Valid()
      modifies this`likedIds, this`affinityScores, db`productLikes, db`productAffinity
      ensures db.Valid()
      ensures userId.None? ==>
        && out == Done && likedIds == old(likedIds) && affinityScores == old(affinityScores)
        && db.productLikes == old(db.productLikes) && db.productAffinity == old(db.productAffinity)
      ensures userId.Some? && currentlyLiked ==>
        && LikeRemoved(old(db.productLikes), db.productLikes, out, userId.value, productId, fault)
        && db.productAffinity == old(db.productAffinity)
        && affinityScores == old(affinityScores)
        && likedIds == if out == Done then old(likedIds) - {productId} else old(likedIds)
      ensures userId.Some? && !currentlyLiked ==>
        && LikeWritten(old(db.productLikes), old(db.productAffinity), db.productLikes, db.productAffinity, out,
                       userId.value, productId, AffinityKeys(product), now, fault)
        && likedIds == (if out == Done then old(likedIds) + {productId} else old(likedIds))
        && affinityScores == (if out == Done then AddCounts(old(affinityScores), MirrorKeys(product)) else old(affinityScores))
      ensures old(Synced()) && currentlyLiked == (productId in old(likedIds)) && "" !in product.tags && out == Done ==> Synced()
    {
      if userId.None? {
        return Done;
      }
      var u := userId.value;
      if currentlyLiked {
        out := RemoveProductLike(db, u, productId, fault);
        if out == Done {
          likedIds := likedIds - {productId};
          if old(Synced()) {
            UnlikeMirrors(old(db.productLikes), db.productLikes, u, productId, fault);
          }
        }
      } else {
        out := AddProductLike(db, u, productId, product, now, fault);
        if out == Done {
          likedIds := likedIds + {productId};
          var keys := MirrorKeys(product);
          affinityScores := IncrementKeys(affinityScores, keys);
          if old(Synced()) && productId !in old(likedIds) && "" !in product.tags {
            LikeMirrors(old(db.productLikes), old(db.productAffinity), db.productLikes, db.productAffinity,
                        u, productId, AffinityKeys(product), now, fault);
            MirrorKeysAgree(product);
          }
        }
      }
    }
  }
}
