/** The logic the post, recipe and product stores share. Each of them keeps a
    like table and a score table; the three differ only in the affinity keys
    they extract from an entity, which the operations here take as input. */
module Affinity {
  import opened Storage
  import opened Ranking
  import opened Db

  type LikeTable = Table<LikeRow>
  type ScoreTable = Table<ScoreRow>

  // ---------------------------------------------------------------------
  // Like table

  /** `getAllFromIndex(likes, "by_user", u)`: the like rows of `u`, in key order. */
  function LikesOf(rows: seq<Row<LikeRow>>, u: int): (r: seq<Row<LikeRow>>)
    ensures |r| <= |rows|
  {
    if rows == [] then []
    else (if rows[0].value.userId == u then [rows[0]] else []) + LikesOf(rows[1..], u)
  }

  /** The scan yields exactly the rows of `u`. */
  lemma {:induction false} LikesOfMembers(rows: seq<Row<LikeRow>>, u: int)
    ensures forall x :: x in LikesOf(rows, u) <==> x in rows && x.value.userId == u
  {
    if rows != [] {
      LikesOfMembers(rows[1..], u);
      assert rows == [rows[0]] + rows[1..];
    }
  }

  /** The liked ids of the like rows `rows`, in order (`.map((r) => r.postId)`). */
  function EntityIds(rows: seq<Row<LikeRow>>): (r: seq<int>)
    ensures |r| == |rows|
    ensures forall i :: 0 <= i < |rows| ==> r[i] == rows[i].value.entityId
  {
    if rows == [] then [] else [rows[0].value.entityId] + EntityIds(rows[1..])
  }

  lemma EntityIdsCons(x: Row<LikeRow>, rows: seq<Row<LikeRow>>)
    ensures EntityIds([x] + rows) == [x.value.entityId] + EntityIds(rows)
  {
    assert ([x] + rows)[1..] == rows;
  }

  /** What `getLiked*Ids(u)` returns: the liked id of every like row of `u`, in
      key order, duplicates included. */
  function LikedIds(t: LikeTable, u: int): seq<int> {
    EntityIds(LikesOf(t.rows, u))
  }

  /** `rows.find((r) => r.postId === id)`: the first row liking `id`. */
  function FindLike(rows: seq<Row<LikeRow>>, id: int): (r: Option<Row<LikeRow>>)
    ensures r.Some? ==> r.value in rows && r.value.value.entityId == id
  {
    if rows == [] then None
    else if rows[0].value.entityId == id then Some(rows[0])
    else FindLike(rows[1..], id)
  }

  /** The like table after `remove*Like(u, id)`: the first like row of `u`
      for `id` is deleted, when there is one. */
  function RemoveLikeSpec(t: LikeTable, u: int, id: int): (t': LikeTable)
    requires Valid(t)
    ensures Valid(t')
  {
    match FindLike(LikesOf(t.rows, u), id)
    case None => t
    case Some(row) => Delete(t, row.id)
  }

  /** `ids` without its first occurrence of `id`. */
  function RemoveFirst(ids: seq<int>, id: int): (r: seq<int>)
    ensures id !in ids ==> r == ids
  {
    if ids == [] then []
    else if ids[0] == id then ids[1..]
    else [ids[0]] + RemoveFirst(ids[1..], id)
  }

  /** Removing a like deletes exactly the first liked occurrence of `id` among
      the liked ids of `u`, and no like row of any other user. */
  lemma {:induction false} RemoveLikeEffect(t: LikeTable, u: int, id: int)
    requires Valid(t)
    ensures LikedIds(RemoveLikeSpec(t, u, id), u) == RemoveFirst(LikedIds(t, u), id)
    ensures forall v :: v != u ==> LikesOf(RemoveLikeSpec(t, u, id).rows, v) == LikesOf(t.rows, v)
    ensures id !in LikedIds(t, u) ==> RemoveLikeSpec(t, u, id) == t
  {
    var f := FindLike(LikesOf(t.rows, u), id);
    FindLikeIds(LikesOf(t.rows, u), id);
    if f.Some? {
      RemoveRowEffect(t.rows, u, id, f.value.id);
      LikesOfMembers(t.rows, u);
      forall v | v != u ensures LikesOf(Without(t.rows, f.value.id), v) == LikesOf(t.rows, v) {
        RemoveOtherUser(t.rows, f.value, v);
      }
    }
  }

  /** Deleting a row of one user by its key leaves every other user's like
      rows as they were. */
  lemma RemoveOtherUser(rows: seq<Row<LikeRow>>, f: Row<LikeRow>, v: int)
    requires KeysIncreasing(rows) && f in rows && f.value.userId != v
    ensures LikesOf(Without(rows, f.id), v) == LikesOf(rows, v)
  {
    forall x | x in rows && x.value.userId == v ensures x.id != f.id {
      var i :| 0 <= i < |rows| && rows[i] == x;
      var j :| 0 <= j < |rows| && rows[j] == f;
      assert i != j;
    }
    WithoutOtherUser(rows, v, f.id);
  }

  /** `find` succeeds exactly when `id` is among the liked ids. */
  lemma {:induction false} FindLikeIds(rows: seq<Row<LikeRow>>, id: int)
    ensures FindLike(rows, id).Some? <==> id in EntityIds(rows)
  {
    if rows != [] {
      FindLikeIds(rows[1..], id);
      assert EntityIds(rows) == [rows[0].value.entityId] + EntityIds(rows[1..]);
    }
  }

  /** Deleting the key of the first row of `u` liking `id` from key-ordered
      rows removes the first occurrence of `id` from the liked ids of `u`. */
  lemma {:induction false} RemoveRowEffect(rows: seq<Row<LikeRow>>, u: int, id: int, key: nat)
    requires KeysIncreasing(rows)
    requires FindLike(LikesOf(rows, u), id).Some? && FindLike(LikesOf(rows, u), id).value.id == key
    ensures EntityIds(LikesOf(Without(rows, key), u)) == RemoveFirst(EntityIds(LikesOf(rows, u)), id)
    decreases |rows|, 1
  {
    var r, rest := rows[0], rows[1..];
    assert rows == [r] + rest;
    if r.value.userId == u && r.value.entityId == id {
      LikesOfCons(r, rest, u);
      RemoveHeadRow(r, rest, u, id, key);
    } else {
      RemoveLaterRow(r, rest, u, id, key);
    }
  }

  /** The first row liking `id` is the head row: it alone is deleted. */
  lemma RemoveHeadRow(r: Row<LikeRow>, rest: seq<Row<LikeRow>>, u: int, id: int, key: nat)
    requires KeysIncreasing([r] + rest)
    requires r.value.userId == u && r.value.entityId == id && r.id == key
    ensures EntityIds(LikesOf(Without([r] + rest, key), u)) == RemoveFirst(EntityIds(LikesOf([r] + rest, u)), id)
  {
    var rows := [r] + rest;
    LikesOfCons(r, rest, u);
    assert forall x :: x in rest ==> x.id != key by {
      forall x | x in rest ensures x.id != key {
        var k :| 0 <= k < |rest| && rest[k] == x;
        assert rows[k + 1] == x;
      }
    }
    assert rows[1..] == rest;
    assert Without(rows, key) == rest;
    EntityIdsCons(r, LikesOf(rest, u));
  }

  /** The first row liking `id` lies after the head row, which stays. */
  lemma {:induction false} RemoveLaterRow(r: Row<LikeRow>, rest: seq<Row<LikeRow>>, u: int, id: int, key: nat)
    requires KeysIncreasing([r] + rest)
    requires !(r.value.userId == u && r.value.entityId == id)
    requires FindLike(LikesOf([r] + rest, u), id).Some? && FindLike(LikesOf([r] + rest, u), id).value.id == key
    ensures EntityIds(LikesOf(Without([r] + rest, key), u)) == RemoveFirst(EntityIds(LikesOf([r] + rest, u)), id)
    decreases |rest| + 1, 0
  {
    LaterRowFacts(r, rest, u, id, key);
    RemoveRowEffect(rest, u, id, key);
    var rows := [r] + rest;
    assert Without(rows, key) == [r] + Without(rest, key);
    LikesOfCons(r, rest, u);
    LikesOfCons(r, Without(rest, key), u);
    var before, after := EntityIds(LikesOf(rest, u)), EntityIds(LikesOf(Without(rest, key), u));
    if r.value.userId == u {
      EntityIdsCons(r, LikesOf(rest, u));
      EntityIdsCons(r, LikesOf(Without(rest, key), u));
      assert r.value.entityId != id;
      assert ([r.value.entityId] + before)[1..] == before;
      assert RemoveFirst([r.value.entityId] + before, id) == [r.value.entityId] + RemoveFirst(before, id);
    } else {
      assert LikesOf(rows, u) == LikesOf(rest, u);
      assert LikesOf(Without(rows, key), u) == LikesOf(Without(rest, key), u);
    }
  }

  lemma LaterRowFacts(r: Row<LikeRow>, rest: seq<Row<LikeRow>>, u: int, id: int, key: nat)
    requires KeysIncreasing([r] + rest)
    requires !(r.value.userId == u && r.value.entityId == id)
    requires FindLike(LikesOf([r] + rest, u), id).Some? && FindLike(LikesOf([r] + rest, u), id).value.id == key
    ensures KeysIncreasing(rest) && r.id != key
    ensures FindLike(LikesOf(rest, u), id).Some? && FindLike(LikesOf(rest, u), id).value.id == key
  {
    LikesOfCons(r, rest, u);
    if r.value.userId == u {
      FindLikeCons(r, LikesOf(rest, u), id);
    } else {
      assert LikesOf([r] + rest, u) == LikesOf(rest, u);
    }
    var found := FindLike(LikesOf(rest, u), id).value;
    LikesOfMembers(rest, u);
    KeysAfterHead(r, rest, found);
  }

  /** In key-ordered rows, the head's key is below every later key. */
  lemma KeysAfterHead<V>(r: Row<V>, rest: seq<Row<V>>, x: Row<V>)
    requires KeysIncreasing([r] + rest) && x in rest
    ensures KeysIncreasing(rest) && r.id < x.id
  {
    var rows := [r] + rest;
    var k :| 0 <= k < |rest| && rest[k] == x;
    assert rows[0] == r && rows[k + 1] == x;
    forall i, j | 0 <= i < j < |rest| ensures rest[i].id < rest[j].id {
      assert rows[i + 1] == rest[i] && rows[j + 1] == rest[j];
    }
  }

  lemma FindLikeCons(x: Row<LikeRow>, rows: seq<Row<LikeRow>>, id: int)
    ensures FindLike([x] + rows, id) == if x.value.entityId == id then Some(x) else FindLike(rows, id)
  {
    assert ([x] + rows)[1..] == rows;
  }

  lemma LikesOfCons(r: Row<LikeRow>, rest: seq<Row<LikeRow>>, u: int)
    ensures LikesOf([r] + rest, u) == (if r.value.userId == u then [r] else []) + LikesOf(rest, u)
  {
    assert ([r] + rest)[1..] == rest;
  }

  /** Deleting a key that no row of `v` has leaves the like rows of `v` as they were. */
  lemma {:induction false} WithoutOtherUser(rows: seq<Row<LikeRow>>, v: int, key: nat)
    requires forall x :: x in rows && x.value.userId == v ==> x.id != key
    ensures LikesOf(Without(rows, key), v) == LikesOf(rows, v)
  {
    if rows != [] {
      var r, rest := rows[0], rows[1..];
      assert rows == [r] + rest;
      WithoutOtherUser(rest, v, key);
      LikesOfCons(r, rest, v);
      if r.id != key {
        assert Without(rows, key) == [r] + Without(rest, key);
        LikesOfCons(r, Without(rest, key), v);
      }
    }
  }

  // ---------------------------------------------------------------------
  // Score table

  /** `getAllFromIndex(scores, "by_user_key", [u, k])`: the score rows of `u`
      for key `k`, in key order. */
  function KeyRows(rows: seq<Row<ScoreRow>>, u: int, k: string): (r: seq<Row<ScoreRow>>)
    ensures |r| <= |rows|
  {
    if rows == [] then []
    else (if rows[0].value.userId == u && rows[0].value.key == k then [rows[0]] else []) + KeyRows(rows[1..], u, k)
  }

  /** The scan yields exactly the rows of `u` for `k`. */
  lemma {:induction false} KeyRowsMembers(rows: seq<Row<ScoreRow>>, u: int, k: string)
    ensures forall x :: x in KeyRows(rows, u, k) <==> x in rows && x.value.userId == u && x.value.key == k
  {
    if rows != [] {
      KeyRowsMembers(rows[1..], u, k);
      assert rows == [rows[0]] + rows[1..];
    }
  }

  /** Some row holds a score of `u` for `k`. */
  ghost predicate Present(rows: seq<Row<ScoreRow>>, u: int, k: string) {
    exists i :: 0 <= i < |rows| && rows[i].value.userId == u && rows[i].value.key == k
  }

  /** The scan by (user, key) finds a row exactly when one is present. */
  lemma {:induction false} KeyRowsPresent(rows: seq<Row<ScoreRow>>, u: int, k: string)
    ensures |KeyRows(rows, u, k)| > 0 <==> Present(rows, u, k)
  {
    if rows != [] {
      KeyRowsPresent(rows[1..], u, k);
      if Present(rows[1..], u, k) {
        var i :| 0 <= i < |rows[1..]| && rows[1..][i].value.userId == u && rows[1..][i].value.key == k;
        assert rows[i + 1] == rows[1..][i];
      }
      if Present(rows, u, k) && !(rows[0].value.userId == u && rows[0].value.key == k) {
        var i :| 0 <= i < |rows| && rows[i].value.userId == u && rows[i].value.key == k;
        assert rows[1..][i - 1] == rows[i];
      }
    }
  }

  /** One iteration of the per-key loop of `add*Like`: the first row of `u` for
      `k` is put back with its score raised by 1, or a row with score 1 is
      added when there is none. `BumpedRow` and `BumpAppends` state the two
      cases. */
  function Bump(t: ScoreTable, u: int, k: string): (t': ScoreTable)
    requires Valid(t)
    ensures Valid(t')
  {
    var existing := KeyRows(t.rows, u, k);
    KeyRowsMembers(t.rows, u, k);
    if |existing| > 0 then
      var row := existing[0];
      assert row in existing;
      Put(t, row.id, ScoreRow(row.value.userId, row.value.key, row.value.score + 1))
    else
      Add(t, ScoreRow(u, k, 1))
  }

  /** The whole per-key loop of `add*Like`: `Bump` for each key in order. */
  function BumpAll(t: ScoreTable, u: int, keys: seq<string>): (t': ScoreTable)
    requires Valid(t)
    ensures Valid(t')
  {
    if keys == [] then t else Bump(BumpAll(t, u, keys[..|keys| - 1]), u, keys[|keys| - 1])
  }

  /** The score one row contributes to `(u, k)`. */
  function Contribution(x: Row<ScoreRow>, u: int, k: string): int {
    if x.value.userId == u && x.value.key == k then x.value.score else 0
  }

  /** The sum of the scores the rows hold for `u` and `k`. */
  function Total(rows: seq<Row<ScoreRow>>, u: int, k: string): int {
    if rows == [] then 0
    else Total(rows[..|rows| - 1], u, k) + Contribution(rows[|rows| - 1], u, k)
  }

  lemma TotalAppend(rows: seq<Row<ScoreRow>>, x: Row<ScoreRow>, u: int, k: string)
    ensures Total(rows + [x], u, k) == Total(rows, u, k) + Contribution(x, u, k)
  {
    assert (rows + [x])[..|rows|] == rows;
  }

  /** Replacing one row changes the total by the difference of the two rows'
      contributions. */
  lemma {:induction false} TotalUpdate(rows: seq<Row<ScoreRow>>, i: nat, x: Row<ScoreRow>, u: int, k: string)
    requires i < |rows|
    ensures Total(rows[i := x], u, k) == Total(rows, u, k) - Contribution(rows[i], u, k) + Contribution(x, u, k)
  {
    var n := |rows| - 1;
    if i < n {
      TotalUpdate(rows[..n], i, x, u, k);
      assert rows[i := x][..n] == rows[..n][i := x];
    } else {
      assert rows[i := x][..n] == rows[..n];
    }
  }

  /** Each like raises the total of `(u, k)` by one and no other total. */
  lemma BumpTotal(t: ScoreTable, u: int, k: string, v: int, k': string)
    requires Valid(t)
    ensures Total(Bump(t, u, k).rows, v, k') == Total(t.rows, v, k') + (if v == u && k' == k then 1 else 0)
  {
    if Present(t.rows, u, k) {
      var m := BumpedRow(t, u, k);
      TotalUpdate(t.rows, m, Row(t.rows[m].id, ScoreRow(u, k, t.rows[m].value.score + 1)), v, k');
    } else {
      BumpAppends(t, u, k);
      TotalAppend(t.rows, Row(t.nextId, ScoreRow(u, k, 1)), v, k');
    }
  }

  /** When `u` has a row for `k`, `Bump` raises one such row by 1 in place,
      keeping its key, user and score key; every other row stays. */
  lemma BumpedRow(t: ScoreTable, u: int, k: string) returns (m: nat)
    requires Valid(t) && Present(t.rows, u, k)
    ensures m < |t.rows| && t.rows[m].value.userId == u && t.rows[m].value.key == k
    ensures Bump(t, u, k).rows == t.rows[m := Row(t.rows[m].id, ScoreRow(u, k, t.rows[m].value.score + 1))]
  {
    var row := BumpIsPut(t, u, k);
    var nv := ScoreRow(u, k, row.value.score + 1);
    m :| 0 <= m < |t.rows| && t.rows[m] == row;
    PutAt(t, m, nv);
  }

  /** When `u` has a row for `k`, `Bump` is the `put` of the first such row
      with its score raised by 1. */
  lemma BumpIsPut(t: ScoreTable, u: int, k: string) returns (row: Row<ScoreRow>)
    requires Valid(t) && Present(t.rows, u, k)
    ensures row in t.rows && row.value.userId == u && row.value.key == k
    ensures Bump(t, u, k) == Put(t, row.id, ScoreRow(u, k, row.value.score + 1))
  {
    var existing := KeyRows(t.rows, u, k);
    KeyRowsPresent(t.rows, u, k);
    KeyRowsMembers(t.rows, u, k);
    row := existing[0];
    assert row in existing;
  }

  /** When `u` has no row for `k`, `Bump` appends the row `(u, k, 1)` under a
      fresh key. */
  lemma BumpAppends(t: ScoreTable, u: int, k: string)
    requires Valid(t) && !Present(t.rows, u, k)
    ensures Bump(t, u, k).rows == t.rows + [Row(t.nextId, ScoreRow(u, k, 1))]
  {
    KeyRowsPresent(t.rows, u, k);
  }

  /** `put` under the key of row `m` replaces row `m` and nothing else. */
  lemma PutAt<V>(t: Table<V>, m: nat, v: V)
    requires Valid(t) && m < |t.rows|
    ensures HasKey(t, t.rows[m].id)
    ensures Put(t, t.rows[m].id, v).rows == t.rows[m := Row(t.rows[m].id, v)]
  {
    var t' := Put(t, t.rows[m].id, v);
    forall i | 0 <= i < |t.rows| ensures t'.rows[i] == t.rows[m := Row(t.rows[m].id, v)][i] {
      if i < m { assert t.rows[i].id < t.rows[m].id; }
      if i > m { assert t.rows[m].id < t.rows[i].id; }
    }
  }

  /** One like gives `u` a row for `k` and removes no (user, key) pair. */
  lemma BumpPresent(t: ScoreTable, u: int, k: string, v: int, k': string)
    requires Valid(t)
    ensures Present(Bump(t, u, k).rows, v, k') <==> Present(t.rows, v, k') || (v == u && k' == k)
  {
    if Present(t.rows, u, k) {
      var m := BumpedRow(t, u, k);
      PresentUpdate(t.rows, m, Row(t.rows[m].id, ScoreRow(u, k, t.rows[m].value.score + 1)), v, k');
    } else {
      BumpAppends(t, u, k);
      var rows := t.rows + [Row(t.nextId, ScoreRow(u, k, 1))];
      assert rows[..|rows| - 1] == t.rows;
      PresentSnoc(rows, v, k');
    }
  }

  /** Replacing a row by one of the same user and key keeps every pair present. */
  lemma PresentUpdate(rows: seq<Row<ScoreRow>>, m: nat, x: Row<ScoreRow>, v: int, k: string)
    requires m < |rows| && x.value.userId == rows[m].value.userId && x.value.key == rows[m].value.key
    ensures Present(rows[m := x], v, k) <==> Present(rows, v, k)
  {
    var rows' := rows[m := x];
    if Present(rows, v, k) {
      var i :| 0 <= i < |rows| && rows[i].value.userId == v && rows[i].value.key == k;
      assert rows'[i].value.userId == v && rows'[i].value.key == k;
    }
    if Present(rows', v, k) {
      var i :| 0 <= i < |rows'| && rows'[i].value.userId == v && rows'[i].value.key == k;
      assert rows[i].value.userId == v && rows[i].value.key == k;
    }
  }

  /** One like keeps at most one row per (user, key). */
  lemma BumpUnique(t: ScoreTable, u: int, k: string)
    requires Valid(t) && UniqueKeys(t.rows)
    ensures UniqueKeys(Bump(t, u, k).rows)
  {
    var r := Bump(t, u, k).rows;
    if Present(t.rows, u, k) {
      var m := BumpedRow(t, u, k);
      forall i, j | 0 <= i < j < |r|
        ensures r[i].value.userId != r[j].value.userId || r[i].value.key != r[j].value.key
      {
        assert r[i].value.userId == t.rows[i].value.userId && r[i].value.key == t.rows[i].value.key;
        assert r[j].value.userId == t.rows[j].value.userId && r[j].value.key == t.rows[j].value.key;
      }
    } else {
      BumpAppends(t, u, k);
      forall i, j | 0 <= i < j < |r|
        ensures r[i].value.userId != r[j].value.userId || r[i].value.key != r[j].value.key
      {
        assert r[i] == t.rows[i];
        if j < |t.rows| {
          assert r[j] == t.rows[j];
        } else {
          assert !(t.rows[i].value.userId == u && t.rows[i].value.key == k);
        }
      }
    }
  }

  /** The per-key loop keeps at most one row per (user, key). */
  lemma {:induction false} BumpAllUnique(t: ScoreTable, u: int, keys: seq<string>)
    requires Valid(t) && UniqueKeys(t.rows)
    ensures UniqueKeys(BumpAll(t, u, keys).rows)
  {
    if keys != [] {
      BumpAllUnique(t, u, keys[..|keys| - 1]);
      BumpUnique(BumpAll(t, u, keys[..|keys| - 1]), u, keys[|keys| - 1]);
    }
  }

  /** After the per-key loop, the total of every key of `u` has risen by the
      number of times the key occurs in the list; other users' totals are
      unchanged. */
  lemma {:induction false} BumpAllTotal(t: ScoreTable, u: int, keys: seq<string>, v: int, k: string)
    requires Valid(t)
    ensures Total(BumpAll(t, u, keys).rows, v, k) == Total(t.rows, v, k) + (if v == u then Occurrences(keys, k) else 0)
  {
    if keys != [] {
      BumpAllTotal(t, u, keys[..|keys| - 1], v, k);
      BumpTotal(BumpAll(t, u, keys[..|keys| - 1]), u, keys[|keys| - 1], v, k);
    }
  }

  /** After the per-key loop, `u` has a row for every key of the list, and
      no (user, key) pair has lost its row. */
  lemma {:induction false} BumpAllPresent(t: ScoreTable, u: int, keys: seq<string>, v: int, k: string)
    requires Valid(t)
    ensures Present(BumpAll(t, u, keys).rows, v, k) <==> Present(t.rows, v, k) || (v == u && k in keys)
  {
    if keys != [] {
      var init, last := keys[..|keys| - 1], keys[|keys| - 1];
      assert keys == init + [last];
      assert k in keys <==> k in init || k == last;
      BumpAllPresent(t, u, init, v, k);
      BumpPresent(BumpAll(t, u, init), u, last, v, k);
    }
  }

  /** `getAllFromIndex(scores, "by_user", u)`: the score rows of `u`, in key order. */
  function ScoresOf(rows: seq<Row<ScoreRow>>, u: int): (r: seq<Row<ScoreRow>>)
    ensures |r| <= |rows|
  {
    if rows == [] then []
    else
      var last := rows[|rows| - 1];
      ScoresOf(rows[..|rows| - 1], u) + (if last.value.userId == u then [last] else [])
  }

  /** `m.get(k) ?? 0`. */
  function Get0(m: map<string, int>, k: string): int {
    if k in m then m[k] else 0
  }

  /** The map the loop of `get*Scores` builds from `rows`:
      `map.set(r.key, (map.get(r.key) ?? 0) + r.score)` for each row in order. */
  function ScoreMap(rows: seq<Row<ScoreRow>>): map<string, int> {
    if rows == [] then map[]
    else
      var m := ScoreMap(rows[..|rows| - 1]);
      var r := rows[|rows| - 1].value;
      m[r.key := Get0(m, r.key) + r.score]
  }

  /** What `get*Scores(u)` returns maps exactly the keys `u` has rows for, each
      to the sum of the scores of those rows. */
  lemma {:induction false} ScoreMapTotals(rows: seq<Row<ScoreRow>>, u: int, k: string)
    ensures k in ScoreMap(ScoresOf(rows, u)) <==> Present(rows, u, k)
    ensures Get0(ScoreMap(ScoresOf(rows, u)), k) == Total(rows, u, k)
  {
    if rows != [] {
      var init, last := rows[..|rows| - 1], rows[|rows| - 1];
      ScoreMapTotals(init, u, k);
      PresentSnoc(rows, u, k);
      if last.value.userId == u {
        assert ScoresOf(rows, u) == ScoresOf(init, u) + [last];
        ScoreMapSnoc(ScoresOf(init, u), last);
      } else {
        assert ScoresOf(rows, u) == ScoresOf(init, u);
      }
    }
  }

  /** A row is present in `rows` exactly when it is present before the last
      row, or is the last row. */
  lemma PresentSnoc(rows: seq<Row<ScoreRow>>, u: int, k: string)
    requires rows != []
    ensures Present(rows, u, k) <==>
      Present(rows[..|rows| - 1], u, k) || (rows[|rows| - 1].value.userId == u && rows[|rows| - 1].value.key == k)
  {
    var init := rows[..|rows| - 1];
    if Present(init, u, k) {
      var i :| 0 <= i < |init| && init[i].value.userId == u && init[i].value.key == k;
      assert rows[i] == init[i];
    }
    if Present(rows, u, k) {
      var i :| 0 <= i < |rows| && rows[i].value.userId == u && rows[i].value.key == k;
      if i < |init| { assert init[i] == rows[i]; }
    }
  }

  /** One more row of the scan adds its score to its key. */
  lemma ScoreMapSnoc(s: seq<Row<ScoreRow>>, x: Row<ScoreRow>)
    ensures ScoreMap(s + [x]) == ScoreMap(s)[x.value.key := Get0(ScoreMap(s), x.value.key) + x.value.score]
  {
    assert (s + [x])[..|s|] == s;
  }

  /** The increment loop of `toggleLike` on the in-memory map:
      `next.set(k, (next.get(k) ?? 0) + 1)` for each key in order. */
  function AddCounts(m: map<string, int>, keys: seq<string>): map<string, int> {
    if keys == [] then m
    else
      var next := AddCounts(m, keys[..|keys| - 1]);
      var k := keys[|keys| - 1];
      next[k := Get0(next, k) + 1]
  }

  /** The increment loop of a like hook's `toggleLike`, on a copy of the
      in-memory map. */
  method IncrementKeys(m: map<string, int>, keys: seq<string>) returns (next: map<string, int>)
    ensures forall k :: k in next <==> k in m || k in keys
    ensures forall k :: Get0(next, k) == Get0(m, k) + Occurrences(keys, k)
    ensures next == AddCounts(m, keys)
  {
    next := m;
    var i := 0;
    while i < |keys|
      invariant 0 <= i <= |keys|
      invariant next == AddCounts(m, keys[..i])
    {
      assert keys[..i + 1][..i] == keys[..i];
      next := next[keys[i] := Get0(next, keys[i]) + 1];
      i := i + 1;
    }
    assert keys[..|keys|] == keys;
    forall k ensures (k in next <==> k in m || k in keys) && Get0(next, k) == Get0(m, k) + Occurrences(keys, k) {
      AddCountsGet(m, keys, k);
    }
  }

  /** Each key's count rises by its number of occurrences; the map gains
      exactly the listed keys. */
  lemma {:induction false} AddCountsGet(m: map<string, int>, keys: seq<string>, k: string)
    ensures k in AddCounts(m, keys) <==> k in m || k in keys
    ensures Get0(AddCounts(m, keys), k) == Get0(m, k) + Occurrences(keys, k)
  {
    if keys != [] {
      var init, last := keys[..|keys| - 1], keys[|keys| - 1];
      AddCountsGet(m, init, k);
      assert keys == init + [last];
      assert k in keys <==> k in init || k == last;
    }
  }

  /** The in-memory increments agree with the store: after a like, the score
      map read back from the store is the map read before with every listed
      key incremented once per occurrence. */
  lemma LikeMirrorsStore(t: ScoreTable, u: int, keys: seq<string>)
    requires Valid(t)
    ensures ScoreMap(ScoresOf(BumpAll(t, u, keys).rows, u)) == AddCounts(ScoreMap(ScoresOf(t.rows, u)), keys)
  {
    var before := ScoreMap(ScoresOf(t.rows, u));
    var after := ScoreMap(ScoresOf(BumpAll(t, u, keys).rows, u));
    var mirror := AddCounts(before, keys);
    forall k ensures (k in after <==> k in mirror) && Get0(after, k) == Get0(mirror, k) {
      ScoreMapTotals(t.rows, u, k);
      ScoreMapTotals(BumpAll(t, u, keys).rows, u, k);
      BumpAllTotal(t, u, keys, u, k);
      BumpAllPresent(t, u, keys, u, k);
      AddCountsGet(before, keys, k);
    }
    assert after.Keys == mirror.Keys;
    forall k | k in after ensures after[k] == mirror[k] {
      assert Get0(after, k) == Get0(mirror, k);
    }
  }

  /** A like row added last is seen last by the scan of its user and not at
      all by the scan of any other user. */
  lemma {:induction false} LikesOfAppend(rows: seq<Row<LikeRow>>, x: Row<LikeRow>, u: int)
    ensures LikesOf(rows + [x], u) == LikesOf(rows, u) + (if x.value.userId == u then [x] else [])
  {
    if rows == [] {
      assert rows + [x] == [x] + rows;
      LikesOfCons(x, rows, u);
    } else {
      var r, rest := rows[0], rows[1..];
      assert rows == [r] + rest;
      assert rows + [x] == [r] + (rest + [x]);
      LikesOfAppend(rest, x, u);
      LikesOfCons(r, rest, u);
      LikesOfCons(r, rest + [x], u);
    }
  }

  /** A like of `id` by `u` puts `id` last in the liked ids of `u` and leaves
      those of every other user as they were. */
  lemma LikedIdsAfterAdd(t: LikeTable, u: int, id: int, now: int, v: int)
    requires Valid(t)
    ensures LikedIds(Add(t, LikeRow(u, id, now)), v) == LikedIds(t, v) + (if v == u then [id] else [])
  {
    var x := Row(t.nextId, LikeRow(u, id, now));
    LikesOfAppend(t.rows, x, v);
    var before := LikesOf(t.rows, v);
    if v == u {
      assert EntityIds(before + [x]) == EntityIds(before) + [id];
    } else {
      assert LikesOf(t.rows + [x], v) == before;
    }
  }

  // ---------------------------------------------------------------------
  // The store operations, on the two tables of one entity kind

  /** The body of the per-key loop: read the rows of `u` for `k` through the
      `by_user_*` index, then put the first back raised by 1 or add a new one.
      This is the step as the store executes it, one statement per call;
      `Bump` is its specification, which the lemmas about the loop use. */
  method BumpKey(t: ScoreTable, u: int, k: string) returns (t': ScoreTable)
    requires Valid(t)
    ensures t' == Bump(t, u, k)
  {
    var existing := KeyRows(t.rows, u, k);
    KeyRowsMembers(t.rows, u, k);
    if |existing| > 0 {
      var row := existing[0];
      assert row in existing;
      t' := Put(t, row.id, ScoreRow(row.value.userId, row.value.key, row.value.score + 1));
    } else {
      t' := Add(t, ScoreRow(u, k, 1));
    }
  }

  /** One turn of the per-key loop advances the loop's table from the first
      `i` keys to the first `i + 1`. */
  method BumpNext(scores: ScoreTable, cur: ScoreTable, u: int, keys: seq<string>, i: nat) returns (next: ScoreTable)
    requires Valid(scores) && i < |keys| && cur == BumpAll(scores, u, keys[..i])
    ensures next == BumpAll(scores, u, keys[..i + 1])
  {
    BumpAllStep(scores, u, keys, i);
    next := BumpKey(cur, u, keys[i]);
  }

  lemma BumpAllStep(t: ScoreTable, u: int, keys: seq<string>, i: nat)
    requires Valid(t) && i < |keys|
    ensures BumpAll(t, u, keys[..i + 1]) == Bump(BumpAll(t, u, keys[..i]), u, keys[i])
  {
    assert keys[..i + 1][..i] == keys[..i];
    assert keys[..i + 1][i] == keys[i];
  }

  /** The outcome of `add*Like(u, id, ...)` under `fault`, from tables
      `likes` and `scores` to `likes'` and `scores'`: the like row is added
      unless write 0 is rejected, and the scores of the keys whose writes
      went through are raised, in order. */
  ghost predicate LikeWritten(likes: LikeTable, scores: ScoreTable, likes': LikeTable, scores': ScoreTable, out: Outcome,
                              u: int, id: int, keys: seq<string>, now: int, fault: Fault)
    requires Valid(likes) && Valid(scores)
  {
    var k := Applied(fault, |keys| + 1);
    && out == (if Fails(fault, |keys| + 1) then StorageError else Done)
    && likes' == (if k == 0 then likes else Add(likes, LikeRow(u, id, now)))
    && scores' == BumpAll(scores, u, keys[..if k == 0 then 0 else k - 1])
  }

  /** `add*Like(u, id, ...)`: adds the like row, then raises the score of each
      of `keys` in turn. Write 0 is the like row, write `1 + i` the one for
      `keys[i]`; a rejected write stops the operation with the earlier writes
      in place. */
  method AddLike(likes: LikeTable, scores: ScoreTable, u: int, id: int, keys: seq<string>, now: int, fault: Fault)
    returns (likes': LikeTable, scores': ScoreTable, out: Outcome)
    requires Valid(likes) && Valid(scores)
    ensures Valid(likes') && Valid(scores')
    ensures UniqueKeys(scores.rows) ==> UniqueKeys(scores'.rows)
    ensures LikeWritten(likes, scores, likes', scores', out, u, id, keys, now, fault)
  {
    if fault.FailAt? && fault.n == 0 {
      assert keys[..0] == [];
      return likes, scores, StorageError;
    }
    likes' := Add(likes, LikeRow(u, id, now));
    scores' := scores;
    var i := 0;
    assert keys[..0] == [];
    while i < |keys|
      invariant 0 <= i <= |keys|
      invariant !Fails(fault, i + 1)
      invariant scores' == BumpAll(scores, u, keys[..i])
    {
      if fault.FailAt? && fault.n == i + 1 {
        if UniqueKeys(scores.rows) {
          BumpAllUnique(scores, u, keys[..i]);
        }
        return likes', scores', StorageError;
      }
      scores' := BumpNext(scores, scores', u, keys, i);
      i := i + 1;
    }
    assert keys[..|keys|] == keys;
    if UniqueKeys(scores.rows) {
      BumpAllUnique(scores, u, keys);
    }
    out := Done;
  }

  /** The outcome of `remove*Like(u, id)` under `fault`: the delete of the
      first like row of `u` for `id` is the only write, and there is none
      when no such row exists. */
  ghost predicate LikeRemoved(likes: LikeTable, likes': LikeTable, out: Outcome, u: int, id: int, fault: Fault)
    requires Valid(likes)
  {
    var writes := if FindLike(LikesOf(likes.rows, u), id).Some? then 1 else 0;
    && out == (if Fails(fault, writes) then StorageError else Done)
    && likes' == (if Fails(fault, writes) then likes else RemoveLikeSpec(likes, u, id))
  }

  /** `remove*Like(u, id)`: deletes the first like row of `u` for `id`, if
      there is one; that delete is the only write. */
  method RemoveLike(likes: LikeTable, u: int, id: int, fault: Fault) returns (likes': LikeTable, out: Outcome)
    requires Valid(likes)
    ensures Valid(likes')
    ensures LikeRemoved(likes, likes', out, u, id, fault)
  {
    var rows := LikesOf(likes.rows, u);
    var row := FindLike(rows, id);
    if row.Some? {
      if fault.FailAt? && fault.n == 0 {
        return likes, StorageError;
      }
      likes' := Delete(likes, row.value.id);
    } else {
      likes' := likes;
    }
    out := Done;
  }

  /** `getLiked*Ids(u)`. */
  method GetLikedIds(likes: LikeTable, u: int, fault: Fault) returns (r: Result<seq<int>>)
    ensures r == (if fault.FailAt? then Failed else Ok(LikedIds(likes, u)))
  {
    if fault.FailAt? {
      return Failed;
    }
    var rows := LikesOf(likes.rows, u);
    var ids := [];
    var i := 0;
    while i < |rows|
      invariant 0 <= i <= |rows|
      invariant ids == EntityIds(rows[..i])
    {
      assert EntityIds(rows[..i + 1]) == EntityIds(rows[..i]) + [rows[i].value.entityId];
      ids := ids + [rows[i].value.entityId];
      i := i + 1;
    }
    assert rows[..|rows|] == rows;
    return Ok(ids);
  }

  /** `get*Scores(u)`: the map from each key `u` has a row for to the sum of
      those rows' scores. */
  method GetScores(scores: ScoreTable, u: int, fault: Fault) returns (r: Result<map<string, int>>)
    ensures fault.FailAt? <==> r.Failed?
    ensures r.Ok? ==> r.value == ScoreMap(ScoresOf(scores.rows, u))
    ensures r.Ok? ==> forall k :: (k in r.value <==> Present(scores.rows, u, k))
    ensures r.Ok? ==> forall k :: Get0(r.value, k) == Total(scores.rows, u, k)
  {
    if fault.FailAt? {
      return Failed;
    }
    var rows := ScoresOf(scores.rows, u);
    var m := map[];
    var i := 0;
    while i < |rows|
      invariant 0 <= i <= |rows|
      invariant m == ScoreMap(rows[..i])
    {
      var row := rows[i].value;
      assert rows[..i + 1][..i] == rows[..i];
      m := m[row.key := Get0(m, row.key) + row.score];
      i := i + 1;
    }
    assert rows[..|rows|] == rows;
    forall k ensures (k in m <==> Present(scores.rows, u, k)) && Get0(m, k) == Total(scores.rows, u, k) {
      ScoreMapTotals(scores.rows, u, k);
    }
    return Ok(m);
  }

  // ---------------------------------------------------------------------
  // The in-memory mirror a like hook keeps

  /** No id is liked twice. */
  ghost predicate NoDup(ids: seq<int>) {
    forall i, j :: 0 <= i < j < |ids| ==> ids[i] != ids[j]
  }

  /** `new Set(ids)`. */
  function IdSet(ids: seq<int>): set<int> {
    set id | id in ids
  }

  /** Without duplicates, dropping the first occurrence of `id` drops `id`. */
  lemma {:induction false} RemoveFirstNoDup(ids: seq<int>, id: int)
    requires NoDup(ids)
    ensures NoDup(RemoveFirst(ids, id))
    ensures IdSet(RemoveFirst(ids, id)) == IdSet(ids) - {id}
  {
    if ids != [] {
      var rest := ids[1..];
      NoDupTail(ids);
      IdSetCons(ids[0], rest);
      assert ids == [ids[0]] + rest;
      if ids[0] != id {
        RemoveFirstNoDup(rest, id);
        var r := RemoveFirst(rest, id);
        assert RemoveFirst(ids, id) == [ids[0]] + r;
        IdSetCons(ids[0], r);
        NoDupCons(ids[0], r);
      }
    }
  }

  /** The tail of a list without duplicates has none, and lacks the head. */
  lemma NoDupTail(ids: seq<int>)
    requires NoDup(ids) && ids != []
    ensures NoDup(ids[1..]) && ids[0] !in ids[1..]
  {
    var rest := ids[1..];
    forall i, j | 0 <= i < j < |rest| ensures rest[i] != rest[j] {
      assert ids[i + 1] != ids[j + 1];
    }
    forall j | 0 <= j < |rest| ensures rest[j] != ids[0] {
      assert ids[0] != ids[j + 1];
    }
  }

  lemma NoDupCons(x: int, r: seq<int>)
    requires NoDup(r) && x !in r
    ensures NoDup([x] + r)
  {
    var s := [x] + r;
    forall i, j | 0 <= i < j < |s| ensures s[i] != s[j] {
      if i > 0 { assert s[i] == r[i - 1]; }
      assert s[j] == r[j - 1] && r[j - 1] in r;
    }
  }

  lemma NoDupSnoc(r: seq<int>, x: int)
    requires NoDup(r) && x !in r
    ensures NoDup(r + [x])
  {
    var s := r + [x];
    forall i, j | 0 <= i < j < |s| ensures s[i] != s[j] {
      if j == |r| { assert s[i] == r[i] && r[i] in r; }
    }
  }

  lemma IdSetCons(x: int, r: seq<int>)
    ensures IdSet([x] + r) == {x} + IdSet(r)
  {
    assert forall y :: y in [x] + r <==> y == x || y in r;
  }

  lemma IdSetSnoc(r: seq<int>, x: int)
    ensures IdSet(r + [x]) == IdSet(r) + {x}
  {
    assert forall y :: y in r + [x] <==> y in r || y == x;
  }

  /** A successful unlike, from a like list without duplicates, removes
      exactly `id` from the set of liked ids. */
  lemma UnlikeMirrors(likes: LikeTable, likes': LikeTable, u: int, id: int, fault: Fault)
    requires Valid(likes) && LikeRemoved(likes, likes', Done, u, id, fault)
    requires NoDup(LikedIds(likes, u))
    ensures NoDup(LikedIds(likes', u))
    ensures IdSet(LikedIds(likes', u)) == IdSet(LikedIds(likes, u)) - {id}
  {
    RemoveLikeEffect(likes, u, id);
    RemoveFirstNoDup(LikedIds(likes, u), id);
  }

  /** A successful like of an id not yet liked adds exactly that id to the
      set of liked ids, and the in-memory increments of the same keys give
      the score map the store then holds. */
  lemma LikeMirrors(likes: LikeTable, scores: ScoreTable, likes': LikeTable, scores': ScoreTable,
                    u: int, id: int, keys: seq<string>, now: int, fault: Fault)
    requires Valid(likes) && Valid(scores)
    requires LikeWritten(likes, scores, likes', scores', Done, u, id, keys, now, fault)
    requires NoDup(LikedIds(likes, u)) && id !in IdSet(LikedIds(likes, u))
    ensures NoDup(LikedIds(likes', u))
    ensures IdSet(LikedIds(likes', u)) == IdSet(LikedIds(likes, u)) + {id}
    ensures ScoreMap(ScoresOf(scores'.rows, u)) == AddCounts(ScoreMap(ScoresOf(scores.rows, u)), keys)
  {
    assert Applied(fault, |keys| + 1) == |keys| + 1;
    assert keys[..|keys|] == keys;
    LikedIdsAfterAdd(likes, u, id, now, u);
    var ids := LikedIds(likes, u);
    assert LikedIds(likes', u) == ids + [id];
    NoDupSnoc(ids, id);
    IdSetSnoc(ids, id);
    LikeMirrorsStore(scores, u, keys);
  }

  /** `.filter(Boolean)` on strings: drops every "". */
  function NonEmpty(keys: seq<string>): (r: seq<string>)
    ensures |r| <= |keys|
    ensures forall k :: k in r <==> k in keys && k != ""
  {
    if keys == [] then []
    else (if keys[0] != "" then [keys[0]] else []) + NonEmpty(keys[1..])
  }

  /** The filter changes the keys exactly when one of them is "". */
  lemma {:induction false} NonEmptyKeeps(keys: seq<string>)
    ensures NonEmpty(keys) == keys <==> "" !in keys
  {
    if keys != [] {
      NonEmptyKeeps(keys[1..]);
      assert keys == [keys[0]] + keys[1..];
      if keys[0] == "" {
        assert |NonEmpty(keys)| < |keys|;
      }
    }
  }

  lemma {:induction false} NonEmptyAppend(a: seq<string>, b: seq<string>)
    ensures NonEmpty(a + b) == NonEmpty(a) + NonEmpty(b)
  {
    if a != [] {
      NonEmptyAppend(a[1..], b);
      assert (a + b)[1..] == a[1..] + b;
      assert (a + b)[0] == a[0];
    } else {
      assert a + b == b;
    }
  }

  /** A filter that keeps every element changes nothing. */
  lemma {:induction false} NonEmptyFull(keys: seq<string>)
    requires |NonEmpty(keys)| == |keys|
    ensures NonEmpty(keys) == keys
  {
    if keys != [] {
      assert keys == [keys[0]] + keys[1..];
      NonEmptyFull(keys[1..]);
    }
  }
}
