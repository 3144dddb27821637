/** The ranker the three affinity stores share (`score*ByAffinity`): drop the
    liked ids, score each remaining id by the sum of its keys' affinity
    scores, drop the ids scoring 0 or less, sort by descending score and keep
    the first `cap`. The stores differ only in how they find an id's keys. */
module Recommender {
  import opened Ranking
  import opened Affinity

  /** `keys.reduce((sum, k) => sum + (scores.get(k) ?? 0), 0)`. */
  function KeyScore(scores: map<string, int>, keys: seq<string>): int {
    if keys == [] then 0
    else KeyScore(scores, keys[..|keys| - 1]) + Get0(scores, keys[|keys| - 1])
  }

  /** The affinity score of `id`; `keysOf` answers `[]` for an id the catalogue
      does not hold. */
  function Score(scores: map<string, int>, keysOf: int -> seq<string>, id: int): int {
    KeyScore(scores, keysOf(id))
  }

  /** Keys absent from the map add nothing: an id without keys scores 0. */
  lemma {:induction false} KeyScoreUnknown(scores: map<string, int>, keys: seq<string>)
    requires forall k :: k in keys ==> k !in scores
    ensures KeyScore(scores, keys) == 0
  {
    if keys != [] {
      assert keys[|keys| - 1] in keys;
      KeyScoreUnknown(scores, keys[..|keys| - 1]);
    }
  }

  /** Raising no entry of the map lowers no score: liking only ever adds
      affinity. */
  lemma {:induction false} KeyScoreMonotonic(scores: map<string, int>, more: map<string, int>, keys: seq<string>)
    requires forall k :: Get0(scores, k) <= Get0(more, k)
    ensures KeyScore(scores, keys) <= KeyScore(more, keys)
  {
    if keys != [] {
      KeyScoreMonotonic(scores, more, keys[..|keys| - 1]);
    }
  }

  /** The in-memory increments of a like raise the score of a key list by the
      number of positions at which the two lists share a key. */
  lemma {:induction false} KeyScoreAfterLike(scores: map<string, int>, liked: seq<string>, keys: seq<string>)
    ensures KeyScore(AddCounts(scores, liked), keys) == KeyScore(scores, keys) + Shared(liked, keys)
  {
    if keys != [] {
      KeyScoreAfterLike(scores, liked, keys[..|keys| - 1]);
      AddCountsGet(scores, liked, keys[|keys| - 1]);
    }
  }

  /** For each key of `keys`, its number of occurrences in `liked`. */
  function Shared(liked: seq<string>, keys: seq<string>): (n: nat) {
    if keys == [] then 0
    else Shared(liked, keys[..|keys| - 1]) + Occurrences(liked, keys[|keys| - 1])
  }

  /** The chain up to the sort: the ids not in `liked`, in input order, each
      paired with its score, keeping those scoring above 0. */
  function Candidates(ids: seq<int>, keysOf: int -> seq<string>, scores: map<string, int>, liked: set<int>): seq<Scored> {
    if ids == [] then []
    else
      var id := ids[0];
      var s := Score(scores, keysOf, id);
      (if id !in liked && s > 0 then [Scored(id, s)] else [])
        + Candidates(ids[1..], keysOf, scores, liked)
  }

  /** The candidates are exactly the unliked ids of the input with a positive
      score, each paired with that score. */
  lemma {:induction false} CandidatesMembers(ids: seq<int>, keysOf: int -> seq<string>, scores: map<string, int>, liked: set<int>)
    ensures forall x :: x in Candidates(ids, keysOf, scores, liked) <==>
      x.id in ids && x.id !in liked && x.score == Score(scores, keysOf, x.id) && x.score > 0
  {
    if ids != [] {
      CandidatesMembers(ids[1..], keysOf, scores, liked);
      assert ids == [ids[0]] + ids[1..];
    }
  }

  /** The chain up to the slice: candidates sorted and cut to `cap`. */
  function Ranked(ids: seq<int>, keysOf: int -> seq<string>, scores: map<string, int>, liked: set<int>, cap: nat): (r: seq<Scored>)
    ensures |r| <= cap
  {
    Take(SortByScore(Candidates(ids, keysOf, scores, liked)), cap)
  }

  /** The whole chain, ending with `.map((p) => p.id)`. */
  function Recommend(ids: seq<int>, keysOf: int -> seq<string>, scores: map<string, int>, liked: set<int>, cap: nat): seq<int> {
    Ids(Ranked(ids, keysOf, scores, liked, cap))
  }

  /** Each recommended id comes from the input, is not liked and scores above
      0; at most `cap` are returned, in non-increasing score order. */
  lemma RecommendSound(ids: seq<int>, keysOf: int -> seq<string>, scores: map<string, int>, liked: set<int>, cap: nat)
    ensures var r := Recommend(ids, keysOf, scores, liked, cap);
      && |r| <= cap
      && (forall i :: 0 <= i < |r| ==>
            r[i] in ids && r[i] !in liked && Score(scores, keysOf, r[i]) > 0)
      && (forall i, j :: 0 <= i < j < |r| ==>
            Score(scores, keysOf, r[i]) >= Score(scores, keysOf, r[j]))
  {
    var c := Candidates(ids, keysOf, scores, liked);
    var s := SortByScore(c);
    var t := Ranked(ids, keysOf, scores, liked, cap);
    CandidatesMembers(ids, keysOf, scores, liked);
    forall i | 0 <= i < |t| ensures t[i] in c && t[i] == s[i] {
      assert t[i] == s[i];
      assert s[i] in multiset(c);
    }
  }

  /** Nothing better is left out: an unliked input id with a positive score
      that is not recommended means the result is full and every recommended
      id scores at least as much. */
  lemma RecommendTop(ids: seq<int>, keysOf: int -> seq<string>, scores: map<string, int>, liked: set<int>, cap: nat, id: int)
    requires id in ids && id !in liked && Score(scores, keysOf, id) > 0
    requires id !in Recommend(ids, keysOf, scores, liked, cap)
    ensures var r := Recommend(ids, keysOf, scores, liked, cap);
      && |r| == cap
      && forall i :: 0 <= i < |r| ==> Score(scores, keysOf, r[i]) >= Score(scores, keysOf, id)
  {
    var c := Candidates(ids, keysOf, scores, liked);
    var s := SortByScore(c);
    var t := Ranked(ids, keysOf, scores, liked, cap);
    var r := Recommend(ids, keysOf, scores, liked, cap);
    CandidatesMembers(ids, keysOf, scores, liked);
    var x := Scored(id, Score(scores, keysOf, id));
    assert x in multiset(s);
    var j :| 0 <= j < |s| && s[j] == x;
    forall i | 0 <= i < |r| ensures Score(scores, keysOf, r[i]) >= Score(scores, keysOf, id) {
      assert t[i] == s[i];
      assert s[i] in multiset(c);
    }
  }

  /** Ties keep input order: for every score, the recommended candidates of
      that score are the first ones of that score among the candidates, which
      are in the order of the input. */
  lemma RecommendTies(ids: seq<int>, keysOf: int -> seq<string>, scores: map<string, int>, liked: set<int>, cap: nat, v: int)
    ensures WithScore(Ranked(ids, keysOf, scores, liked, cap), v) <= WithScore(Candidates(ids, keysOf, scores, liked), v)
  {
    var c := Candidates(ids, keysOf, scores, liked);
    TakeWithScore(SortByScore(c), cap, v);
    SortStable(c, v);
  }
}
