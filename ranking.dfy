/** Ranking shared by the four recommenders: candidates paired with a score,
    the engine's stable `sort` with the comparator `(a, b) => b.score - a.score`
    (descending score, ties in input order), and `slice(0, n)`. */
module Ranking {

  /** A candidate id with its score (an affinity sum, or a selection count). */
  datatype Scored = Scored(id: int, score: int)

  /** Scores never increase along `s`. */
  ghost predicate SortedDesc(s: seq<Scored>) {
    forall i, j :: 0 <= i < j < |s| ==> s[i].score >= s[j].score
  }

  /** The elements of `s` whose score is `v`, in the order of `s`. */
  function WithScore(s: seq<Scored>, v: int): (r: seq<Scored>)
    ensures |r| <= |s|
    ensures forall x :: x in r ==> x in s && x.score == v
  {
    if s == [] then []
    else (if s[0].score == v then [s[0]] else []) + WithScore(s[1..], v)
  }

  /** The ids of `s`, in order (the final `.map((p) => p.id)`). */
  function Ids(s: seq<Scored>): (r: seq<int>)
    ensures |r| == |s|
    ensures forall i :: 0 <= i < |s| ==> r[i] == s[i].id
  {
    seq(|s|, i requires 0 <= i < |s| => s[i].id)
  }

  /** `slice(0, n)`: the first `n` elements, or all of them when fewer. */
  function Take<T>(s: seq<T>, n: nat): (r: seq<T>)
    ensures r <= s
    ensures |r| <= n && (|r| == n || r == s)
  {
    if |s| <= n then s else s[..n]
  }

  /** How many times `x` occurs in `s`: a key among the keys of a like, or a
      user among the selections of a device. */
  function Occurrences<T(==)>(s: seq<T>, x: T): (n: nat)
    ensures n <= |s|
    ensures n == 0 <==> x !in s
  {
    if s == [] then 0
    else Occurrences(s[..|s| - 1], x) + (if s[|s| - 1] == x then 1 else 0)
  }

  /** Places `x` in front of the first element of `s` whose score is not
      above its own: one insertion step of a stable descending sort. */
  function Insert(x: Scored, s: seq<Scored>): (r: seq<Scored>)
    ensures multiset(r) == multiset(s) + multiset{x}
  {
    if s == [] || x.score >= s[0].score then [x] + s
    else
      assert s == [s[0]] + s[1..];
      [s[0]] + Insert(x, s[1..])
  }

  /** Inserting into a descending sequence keeps it descending. */
  lemma {:induction false} InsertSorted(x: Scored, s: seq<Scored>)
    requires SortedDesc(s)
    ensures SortedDesc(Insert(x, s))
  {
    if s != [] && x.score < s[0].score {
      InsertSorted(x, s[1..]);
      var t := Insert(x, s[1..]);
      forall y | y in t ensures s[0].score >= y.score {
        assert y in multiset(s[1..]) + multiset{x};
        if y != x {
          var k :| 0 <= k < |s[1..]| && s[1..][k] == y;
          assert s[k + 1] == y;
        }
      }
      DescCons(s[0], t);
    }
  }

  /** An element scoring at least every element of a descending sequence can
      go in front of it. */
  lemma DescCons(a: Scored, t: seq<Scored>)
    requires SortedDesc(t)
    requires forall y :: y in t ==> a.score >= y.score
    ensures SortedDesc([a] + t)
  {
    var r := [a] + t;
    forall i, j | 0 <= i < j < |r| ensures r[i].score >= r[j].score {
      assert r[j] == t[j - 1] && t[j - 1] in t;
      if i > 0 { assert r[i] == t[i - 1]; }
    }
  }

  /** The stable sort by descending score. */
  function SortByScore(s: seq<Scored>): (r: seq<Scored>)
    ensures multiset(r) == multiset(s)
    ensures |r| == |s|
    ensures SortedDesc(r)
  {
    if s == [] then []
    else
      var t := SortByScore(s[1..]);
      assert s == [s[0]] + s[1..];
      InsertSorted(s[0], t);
      Insert(s[0], t)
  }

  /** Inserting `x` puts it ahead of every element of its own score and removes
      nothing: the elements of any one score keep their order. */
  lemma {:induction false} InsertWithScore(x: Scored, s: seq<Scored>, v: int)
    ensures WithScore(Insert(x, s), v) == if x.score == v then [x] + WithScore(s, v) else WithScore(s, v)
  {
    if s == [] || x.score >= s[0].score {
      assert ([x] + s)[1..] == s;
    } else {
      InsertWithScore(x, s[1..], v);
      assert ([s[0]] + Insert(x, s[1..]))[1..] == Insert(x, s[1..]);
    }
  }

  /** Stability: for every score, the elements of that score appear in the
      sorted sequence in exactly the order they have in the input. */
  lemma {:induction false} SortStable(s: seq<Scored>, v: int)
    ensures WithScore(SortByScore(s), v) == WithScore(s, v)
  {
    if s != [] {
      SortStable(s[1..], v);
      InsertWithScore(s[0], SortByScore(s[1..]), v);
    }
  }

  /** Selecting by score distributes over concatenation. */
  lemma {:induction false} WithScoreAppend(a: seq<Scored>, b: seq<Scored>, v: int)
    ensures WithScore(a + b, v) == WithScore(a, v) + WithScore(b, v)
  {
    if a == [] {
      assert a + b == b;
    } else {
      assert (a + b)[1..] == a[1..] + b;
      WithScoreAppend(a[1..], b, v);
    }
  }

  /** A prefix keeps, for every score, a prefix of the elements of that score. */
  lemma TakeWithScore(s: seq<Scored>, n: nat, v: int)
    ensures WithScore(Take(s, n), v) <= WithScore(s, v)
  {
    if |s| > n {
      assert s == s[..n] + s[n..];
      WithScoreAppend(s[..n], s[n..], v);
    }
  }

  /** `a` goes before `b`: a higher score, or the same score and a lower
      `rank` of the id. */
  predicate Before(a: Scored, b: Scored, rank: int -> int) {
    a.score > b.score || (a.score == b.score && rank(a.id) < rank(b.id))
  }

  /** `s` is ordered by descending score, and by ascending `rank` of the id
      among elements of equal score. */
  ghost predicate RankedBy(s: seq<Scored>, rank: int -> int) {
    forall i, j :: 0 <= i < j < |s| ==> Before(s[i], s[j], rank)
  }

  lemma RankedCons(a: Scored, t: seq<Scored>, rank: int -> int)
    requires RankedBy(t, rank)
    requires forall y :: y in t ==> Before(a, y, rank)
    ensures RankedBy([a] + t, rank)
  {
    var r := [a] + t;
    forall i, j | 0 <= i < j < |r| ensures Before(r[i], r[j], rank) {
      assert r[j] == t[j - 1] && t[j - 1] in t;
      if i > 0 { assert r[i] == t[i - 1]; }
    }
  }

  lemma {:induction false} InsertRanked(x: Scored, s: seq<Scored>, rank: int -> int)
    requires RankedBy(s, rank)
    requires forall y :: y in s ==> rank(x.id) < rank(y.id)
    ensures RankedBy(Insert(x, s), rank)
  {
    if s == [] || x.score >= s[0].score {
      forall y | y in s ensures Before(x, y, rank) {
        var k :| 0 <= k < |s| && s[k] == y;
        if k > 0 { assert Before(s[0], s[k], rank); }
      }
      RankedCons(x, s, rank);
    } else {
      InsertRanked(x, s[1..], rank);
      var t := Insert(x, s[1..]);
      forall y | y in t ensures Before(s[0], y, rank) {
        assert y in multiset(s[1..]) + multiset{x};
        if y != x {
          var k :| 0 <= k < |s[1..]| && s[1..][k] == y;
          assert s[k + 1] == y;
        }
      }
      RankedCons(s[0], t, rank);
    }
  }

  /** Sorting a sequence whose ids come in strictly increasing `rank` yields
      descending scores with equal scores in ascending `rank`: the tie order
      of a stable sort is the input order. */
  lemma {:induction false} SortRanked(s: seq<Scored>, rank: int -> int)
    requires forall i, j :: 0 <= i < j < |s| ==> rank(s[i].id) < rank(s[j].id)
    ensures RankedBy(SortByScore(s), rank)
  {
    if s != [] {
      SortRanked(s[1..], rank);
      var t := SortByScore(s[1..]);
      forall y | y in t ensures rank(s[0].id) < rank(y.id) {
        assert y in multiset(t);
        var k :| 0 <= k < |s[1..]| && s[1..][k] == y;
        assert s[k + 1] == y;
      }
      InsertRanked(s[0], t, rank);
    }
  }
}
