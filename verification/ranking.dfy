/** Ordering search results: `results.sort(key=lambda x: x[1], reverse=True)`
    followed by `results[:limit]`. Python's sort is stable also when reversed, so
    results with equal scores keep the order they were found in. */
module Ranking {

  /** A result paired with its similarity score. */
  datatype Scored<T> = Scored(item: T, score: real)

  /** Scores never increase along `s`. */
  predicate Descending<T>(s: seq<Scored<T>>)
  {
    forall i, j :: 0 <= i < j < |s| ==> s[i].score >= s[j].score
  }

  /** The results of `s` whose score is `v`, in their order in `s`. */
  function WithScore<T>(s: seq<Scored<T>>, v: real): (r: seq<Scored<T>>)
    ensures forall i :: 0 <= i < |r| ==> r[i].score == v
  {
    if |s| == 0 then []
    else (if s[0].score == v then [s[0]] else []) + WithScore(s[1..], v)
  }

  lemma {:induction false} WithScoreConcat<T>(a: seq<Scored<T>>, b: seq<Scored<T>>, v: real)
    ensures WithScore(a + b, v) == WithScore(a, v) + WithScore(b, v)
  {
    if |a| == 0 {
      assert a + b == b;
    } else {
      assert (a + b)[1..] == a[1..] + b;
      WithScoreConcat(a[1..], b, v);
    }
  }

  /** Places `x` in front of the first result of `s` whose score is at most its
      own: after every higher score, before every equal or lower one. */
  function Insert<T>(x: Scored<T>, s: seq<Scored<T>>): (r: seq<Scored<T>>)
    ensures |r| == |s| + 1
  {
    if |s| == 0 || s[0].score <= x.score then [x] + s
    else [s[0]] + Insert(x, s[1..])
  }

  /** The reverse-ordered stable sort: each result is inserted in front of the
      equal scores that followed it in `s`. */
  function SortByScore<T>(s: seq<Scored<T>>): (r: seq<Scored<T>>)
    ensures |r| == |s|
  {
    if |s| == 0 then [] else Insert(s[0], SortByScore(s[1..]))
  }

  lemma {:induction false} InsertPermutes<T>(x: Scored<T>, s: seq<Scored<T>>)
    ensures multiset(Insert(x, s)) == multiset([x] + s)
  {
    if |s| > 0 && s[0].score > x.score {
      InsertPermutes(x, s[1..]);
      assert s == [s[0]] + s[1..];
    }
  }

  /** Sorting only reorders: the same results, each as often. */
  lemma {:induction false} SortPermutes<T>(s: seq<Scored<T>>)
    ensures multiset(SortByScore(s)) == multiset(s)
  {
    if |s| > 0 {
      SortPermutes(s[1..]);
      InsertPermutes(s[0], SortByScore(s[1..]));
      assert s == [s[0]] + s[1..];
    }
  }

  lemma {:induction false} InsertKeepsDescending<T>(x: Scored<T>, s: seq<Scored<T>>)
    requires Descending(s)
    ensures Descending(Insert(x, s))
    ensures forall i :: 0 <= i < |Insert(x, s)| ==> Insert(x, s)[i] == x || Insert(x, s)[i] in s
  {
    if |s| > 0 && s[0].score > x.score {
      InsertKeepsDescending(x, s[1..]);
      var r := Insert(x, s);
      var tail := Insert(x, s[1..]);
      assert r == [s[0]] + tail;
      forall i, j | 0 <= i < j < |r|
        ensures r[i].score >= r[j].score
      {
        if i == 0 {
          assert r[j] == tail[j - 1];
          assert r[j] == x || r[j] in s[1..];
        } else {
          assert r[i] == tail[i - 1] && r[j] == tail[j - 1];
        }
      }
    }
  }

  /** The sorted results are in non-increasing score order. */
  lemma {:induction false} SortDescending<T>(s: seq<Scored<T>>)
    ensures Descending(SortByScore(s))
  {
    if |s| > 0 {
      SortDescending(s[1..]);
      InsertKeepsDescending(s[0], SortByScore(s[1..]));
    }
  }

  lemma {:induction false} InsertStable<T>(x: Scored<T>, s: seq<Scored<T>>, v: real)
    ensures WithScore(Insert(x, s), v) == (if x.score == v then [x] else []) + WithScore(s, v)
  {
    if |s| == 0 || s[0].score <= x.score {
      WithScoreConcat([x], s, v);
    } else {
      InsertStable(x, s[1..], v);
      WithScoreConcat([s[0]], Insert(x, s[1..]), v);
      WithScoreConcat([s[0]], s[1..], v);
      assert s == [s[0]] + s[1..];
    }
  }

  /** Stability: for every score, the results with that score come out in the
      order they went in. */
  lemma {:induction false} SortStable<T>(s: seq<Scored<T>>, v: real)
    ensures WithScore(SortByScore(s), v) == WithScore(s, v)
  {
    if |s| > 0 {
      SortStable(s[1..], v);
      InsertStable(s[0], SortByScore(s[1..]), v);
    }
  }

  /** `s[:limit]` for an integer `limit`: a negative limit counts from the end. */
  function Slice<T>(s: seq<T>, limit: int): (r: seq<T>)
    ensures |r| == if limit >= 0 then (if limit < |s| then limit else |s|)
                   else (if |s| + limit > 0 then |s| + limit else 0)
    ensures r == s[..|r|]
  {
    if limit >= 0 then (if limit < |s| then s[..limit] else s)
    else (if |s| + limit > 0 then s[..|s| + limit] else [])
  }

  /** `sorted(s, reverse=True)[:limit]` by score: in non-increasing score order,
      at most `limit` results when `limit` is not negative, each one of `s`. */
  function Top<T>(s: seq<Scored<T>>, limit: int): (r: seq<Scored<T>>)
    ensures Descending(r)
    ensures limit >= 0 ==> |r| <= limit
    ensures forall x :: x in r ==> x in s
  {
    SortDescending(s);
    SortPermutes(s);
    var sorted := SortByScore(s);
    assert forall x :: x in sorted ==> x in s by {
      forall x | x in sorted ensures x in s {
        assert x in multiset(sorted);
      }
    }
    Slice(sorted, limit)
  }
}
