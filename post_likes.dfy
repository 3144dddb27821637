/** `src/feature/posts/usePostLikes.ts`: the hook's state for one signed-in
    user (or none), mirroring the post store in memory. `load` and
    `toggleLike` run to completion one at a time. */
module PostLikesHook {
  import opened Storage
  import opened Db
  import opened Affinity
  import opened PostStore

  class PostLikes {
    /** The database the store functions use. */
    const db: Db
    /** The `userId` argument of the hook; `None` is `undefined`. */
    const userId: Option<int>
    var likedIds: set<int>
    var tagScores: map<string, int>
    var isLoading: bool

    /** The state on first render. */
    constructor (db: Db, userId: Option<int>)
      ensures this.db == db && this.userId == userId
      ensures likedIds == {} && tagScores == map[] && isLoading
    {
      this.db := db;
      this.userId := userId;
      likedIds, tagScores, isLoading := {}, map[], true;
    }

    /** The mirror agrees with the store: the liked set is the set of the
        user's liked post ids (which has no repeats), and the tag scores are
        what `getPostTagScores` would answer. */
    ghost predicate Synced()
      reads this, db
    {
      && db.Valid()
      && (userId.Some? ==>
            var ids := LikedIds(db.postLikes, userId.value);
            && NoDup(ids)
            && likedIds == IdSet(ids)
            && tagScores == ScoreMap(ScoresOf(db.postTagScores.rows, userId.value)))
    }

    /** `load()`: both reads run together; a failed read rejects the whole
        load, which still ends with `isLoading` false. */
    method Load(fault: Fault) returns (out: Outcome)
      modifies this
      ensures !isLoading
      ensures userId.None? ==> out == Done && likedIds == {} && tagScores == map[]
      ensures userId.Some? && fault.FailAt? ==>
        out == StorageError && likedIds == old(likedIds) && tagScores == old(tagScores)
      ensures userId.Some? && fault.NoFault? ==>
        && out == Done
        && likedIds == IdSet(LikedIds(db.postLikes, userId.value))
        && tagScores == ScoreMap(ScoresOf(db.postTagScores.rows, userId.value))
      ensures db.Valid() && out == Done && (userId.Some? ==> NoDup(LikedIds(db.postLikes, userId.value))) ==> Synced()
    {
      if userId.None? {
        likedIds, tagScores, isLoading := {}, map[], false;
        return Done;
      }
      isLoading := true;
      var ids := GetLikedPostIds(db, userId.value, fault);
      var scores := GetPostTagScores(db, userId.value, fault);
      if ids.Ok? && scores.Ok? {
        likedIds := IdSet(ids.value);
        tagScores := scores.value;
        out := Done;
      } else {
        out := StorageError;
      }
      isLoading := false;
    }

    /** `toggleLike(postId, tags, currentlyLiked)`: the store call first; the
        mirror changes only once it has succeeded. */
    method ToggleLike(postId: int, tags: seq<string>, currentlyLiked: bool, now: int, fault: Fault) returns (out: Outcome)
      requires db.Valid()
      modifies this`likedIds, this`tagScores, db`postLikes, db`postTagScores
      ensures db.Valid()
      ensures userId.None? ==>
        && out == Done && likedIds == old(likedIds) && tagScores == old(tagScores)
        && db.postLikes == old(db.postLikes) && db.postTagScores == old(db.postTagScores)
      ensures userId.Some? && currentlyLiked ==>
        && LikeRemoved(old(db.postLikes), db.postLikes, out, userId.value, postId, fault)
        && db.postTagScores == old(db.postTagScores)
        && tagScores == old(tagScores)
        && likedIds == if out == Done then old(likedIds) - {postId} else old(likedIds)
      ensures userId.Some? && !currentlyLiked ==>
        && LikeWritten(old(db.postLikes), old(db.postTagScores), db.postLikes, db.postTagScores, out,
                       userId.value, postId, tags, now, fault)
        && likedIds == (if out == Done then old(likedIds) + {postId} else old(likedIds))
        && tagScores == (if out == Done then AddCounts(old(tagScores), tags) else old(tagScores))
      ensures old(Synced()) && currentlyLiked == (postId in old(likedIds)) && out == Done ==> Synced()
    {
      if userId.None? {
        return Done;
      }
      var u := userId.value;
      if currentlyLiked {
        out := RemovePostLike(db, u, postId, fault);
        if out == Done {
          likedIds := likedIds - {postId};
          if old(Synced()) {
            UnlikeMirrors(old(db.postLikes), db.postLikes, u, postId, fault);
          }
        }
      } else {
        out := AddPostLike(db, u, postId, tags, now, fault);
        if out == Done {
          likedIds := likedIds + {postId};
          tagScores := IncrementKeys(tagScores, tags);
          if old(Synced()) && postId !in old(likedIds) {
            LikeMirrors(old(db.postLikes), old(db.postTagScores), db.postLikes, db.postTagScores,
                        u, postId, tags, now, fault);
          }
        }
      }
    }
  }
}
