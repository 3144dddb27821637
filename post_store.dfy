/** `src/store/postStore.ts`: likes of posts and the per-(user, tag) scores
    they feed, and the post recommender. A post's affinity keys are its tags,
    as given. */
module PostStore {
  import opened Storage
  import opened Db
  import opened Affinity
  import opened Ranking
  import opened Recommender

  /** How many posts the recommender returns at most. */
  const RECOMMENDED_POSTS_COUNT: nat := 6

  /** The part of a post the recommender reads. */
  datatype Post = Post(tags: seq<string>)

  /** `addPostLike(userId, postId, tags)`; `now` is `Date.now()`. */
  method AddPostLike(db: Db, userId: int, postId: int, tags: seq<string>, now: int, fault: Fault) returns (out: Outcome)
    requires db.Valid()
    modifies db`postLikes, db`postTagScores
    ensures db.Valid()
    ensures LikeWritten(old(db.postLikes), old(db.postTagScores), db.postLikes, db.postTagScores, out,
                        userId, postId, tags, now, fault)
  {
    db.postLikes, db.postTagScores, out := AddLike(db.postLikes, db.postTagScores, userId, postId, tags, now, fault);
  }

  /** `removePostLike(userId, postId)`: the tag scores are not touched. */
  method RemovePostLike(db: Db, userId: int, postId: int, fault: Fault) returns (out: Outcome)
    requires db.Valid()
    modifies db`postLikes
    ensures db.Valid()
    ensures LikeRemoved(old(db.postLikes), db.postLikes, out, userId, postId, fault)
  {
    db.postLikes, out := RemoveLike(db.postLikes, userId, postId, fault);
  }

  /** `getLikedPostIds(userId)`. */
  method GetLikedPostIds(db: Db, userId: int, fault: Fault) returns (r: Result<seq<int>>)
    ensures r == (if fault.FailAt? then Failed else Ok(LikedIds(db.postLikes, userId)))
  {
    r := GetLikedIds(db.postLikes, userId, fault);
  }

  /** `getPostTagScores(userId)`: each tag the user has a row for, mapped to
      the sum of those rows' scores. */
  method GetPostTagScores(db: Db, userId: int, fault: Fault) returns (r: Result<map<string, int>>)
    ensures fault.FailAt? <==> r.Failed?
    ensures r.Ok? ==> r.value == ScoreMap(ScoresOf(db.postTagScores.rows, userId))
    ensures r.Ok? ==> forall k :: (k in r.value <==> Present(db.postTagScores.rows, userId, k))
    ensures r.Ok? ==> forall k :: Get0(r.value, k) == Total(db.postTagScores.rows, userId, k)
  {
    r := GetScores(db.postTagScores, userId, fault);
  }

  /** `post?.tags ?? []` for the post with id `id`. */
  function TagsOf(postsById: map<int, Post>): int -> seq<string> {
    id => if id in postsById then postsById[id].tags else []
  }

  /** The tag-affinity score of post `id`. */
  function PostScore(postsById: map<int, Post>, tagScores: map<string, int>, id: int): int {
    Score(tagScores, TagsOf(postsById), id)
  }

  /** `scorePostsByTagAffinity(postIds, postsById, tagScores, likedSet)`: at
      most six posts from `postIds`, none liked, none missing from `postsById`,
      each with a positive tag score, in non-increasing score order. */
  function ScorePostsByTagAffinity(postIds: seq<int>, postsById: map<int, Post>, tagScores: map<string, int>, likedSet: set<int>): (r: seq<int>)
    ensures |r| <= RECOMMENDED_POSTS_COUNT
    ensures forall i :: 0 <= i < |r| ==>
      && r[i] in postIds && r[i] !in likedSet && r[i] in postsById
      && PostScore(postsById, tagScores, r[i]) > 0
    ensures forall i, j :: 0 <= i < j < |r| ==>
      PostScore(postsById, tagScores, r[i]) >= PostScore(postsById, tagScores, r[j])
  {
    var r := Recommend(postIds, TagsOf(postsById), tagScores, likedSet, RECOMMENDED_POSTS_COUNT);
    RecommendSound(postIds, TagsOf(postsById), tagScores, likedSet, RECOMMENDED_POSTS_COUNT);
    assert forall id :: id !in postsById ==> PostScore(postsById, tagScores, id) == 0;
    r
  }

  /** User 1 likes post 10 tagged "tech" and "ai" on an empty database: the
      scores read back are one for each tag, and the liked ids are [10]. */
  lemma LikeOnEmptyStore(likes: LikeTable, scores: ScoreTable, out: Outcome, now: int)
    requires LikeWritten(Empty(), Empty(), likes, scores, out, 1, 10, ["tech", "ai"], now, NoFault)
    ensures out == Done
    ensures LikedIds(likes, 1) == [10]
    ensures ScoreMap(ScoresOf(scores.rows, 1)) == map["tech" := 1, "ai" := 1]
  {
    var e: ScoreTable := Empty();
    assert ["tech", "ai"][..2] == ["tech", "ai"];
    LikedIdsAfterAdd(Empty(), 1, 10, now, 1);
    LikeMirrorsStore(e, 1, ["tech", "ai"]);
    assert ScoreMap(ScoresOf(e.rows, 1)) == map[];
    TwoTagsCounted();
  }

  lemma TwoTagsCounted()
    ensures AddCounts(map[], ["tech", "ai"]) == map["tech" := 1, "ai" := 1]
  {
    assert ["tech", "ai"][..1] == ["tech"];
    assert AddCounts(map[], ["tech"]) == map["tech" := 1];
  }

  /** Posts 10 and 11 liked, so "tech" scores 2 and "food" 1: of the
      candidates 10, 11 and 12, only 12 is recommended. */
  lemma RecommendAfterTwoLikes()
    ensures ScorePostsByTagAffinity([10, 11, 12],
      map[10 := Post(["tech"]), 11 := Post(["tech", "food"]), 12 := Post(["tech"])],
      map["tech" := 2, "food" := 1], {10, 11}) == [12]
  {
    var posts := map[10 := Post(["tech"]), 11 := Post(["tech", "food"]), 12 := Post(["tech"])];
    var scores := map["tech" := 2, "food" := 1];
    var liked := {10, 11};
    assert KeyScore(scores, ["tech"]) == 2 by {
      assert ["tech"][..0] == [];
    }
    assert PostScore(posts, scores, 12) == 2;
    var c := Candidates([10, 11, 12], TagsOf(posts), scores, liked);
    assert [10, 11, 12][1..] == [11, 12] && [11, 12][1..] == [12] && [12][1..] == [];
    assert c == [Scored(12, 2)];
    assert SortByScore(c) == [Scored(12, 2)];
  }

  /** Removing the like of post 10 after `LikeOnEmptyStore` drops 10 from the
      liked ids; the scores are another table, which removal does not write. */
  lemma UnlikeAfterLike(likes: LikeTable, likes': LikeTable, now: int)
    requires Valid(likes) && LikedIds(likes, 1) == [10]
    requires LikeRemoved(likes, likes', Done, 1, 10, NoFault)
    ensures LikedIds(likes', 1) == []
  {
    RemoveLikeEffect(likes, 1, 10);
  }
}
