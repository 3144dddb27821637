/** The database the stores share: the row shapes of its seven object stores,
    and the object holding their current contents. Opening the database, its
    version upgrades and the cached open promise are not modelled; each table
    starts empty. */
module Db {
  import opened Storage

  /** A row of `userSelections`: which user was chosen on which device, when. */
  datatype SelectionRow = SelectionRow(deviceId: string, selectedUserId: int, timestamp: int)

  /** A row of `postLikes`, `recipeLikes` or `productLikes`; `entityId` is the
      `postId`, `recipeId` or `productId` column. */
  datatype LikeRow = LikeRow(userId: int, entityId: int, timestamp: int)

  /** A row of `postTagScores`, `recipeAffinity` or `productAffinity`; `key` is
      the `tag` column of `postTagScores` and the `key` column of the others. */
  datatype ScoreRow = ScoreRow(userId: int, key: string, score: int)

  /** At most one row per (user, key): the invariant the score tables keep,
      since a like raises an existing (user, key) row rather than adding a
      second one. */
  ghost predicate UniqueKeys(rows: seq<Row<ScoreRow>>) {
    forall i, j :: 0 <= i < j < |rows| ==>
      rows[i].value.userId != rows[j].value.userId || rows[i].value.key != rows[j].value.key
  }

  /** The open database. Each field is one object store; the stores replace a
      field's value when they write to that object store. */
  class Db {
    var userSelections: Table<SelectionRow>
    var postLikes: Table<LikeRow>
    var postTagScores: Table<ScoreRow>
    var recipeLikes: Table<LikeRow>
    var recipeAffinity: Table<ScoreRow>
    var productLikes: Table<LikeRow>
    var productAffinity: Table<ScoreRow>

    /** Every object store is well formed, and each score table holds at most
        one row per (user, key). */
    ghost predicate Valid()
      reads this
    {
      && Storage.Valid(userSelections)
      && Storage.Valid(postLikes) && Storage.Valid(postTagScores)
      && Storage.Valid(recipeLikes) && Storage.Valid(recipeAffinity)
      && Storage.Valid(productLikes) && Storage.Valid(productAffinity)
      && UniqueKeys(postTagScores.rows) && UniqueKeys(recipeAffinity.rows)
      && UniqueKeys(productAffinity.rows)
    }

    /** A database whose object stores were just created. */
    constructor ()
      ensures Valid()
      ensures userSelections.rows == [] && postLikes.rows == [] && postTagScores.rows == []
      ensures recipeLikes.rows == [] && recipeAffinity.rows == []
      ensures productLikes.rows == [] && productAffinity.rows == []
    {
      userSelections := Empty();
      postLikes, postTagScores := Empty(), Empty();
      recipeLikes, recipeAffinity := Empty(), Empty();
      productLikes, productAffinity := Empty(), Empty();
    }
  }
}
