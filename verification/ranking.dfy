/**
 * Ordering and cutting the similarity results:
 * `similarities.sort(key=lambda x: x["similarity_score"], reverse=True)`
 * followed by `similarities[:top_k]`.
 *
 * Python's `list.sort` is stable, also with `reverse=True`: items with equal
 * keys keep their original order. `SortByScore` is the stable descending
 * insertion sort, and the lemmas below show it is sorted, a permutation and
 * stable, which together pin down the result of any stable sort.
 */
module Ranking {
  import opened Wrappers

  /** One entry of `results`; `score` is the rounded `similarity_score`. */
  datatype ResultItem = ResultItem(
    newsId: string,
    header: Option<string>,
    desc: Option<string>,
    score: real,
    dateTime: Option<string>)

  /** Non-increasing by score. */
  predicate SortedDesc(s: seq<ResultItem>)
  {
    forall i, j :: 0 <= i < j < |s| ==> s[i].score >= s[j].score
  }

  /** The items with score exactly `v`, in their order in `s`. */
  function WithScore(s: seq<ResultItem>, v: real): (r: seq<ResultItem>)
    ensures |r| <= |s|
    ensures forall x :: x in r ==> x in s && x.score == v
  {
    if s == [] then []
    else (if s[0].score == v then [s[0]] else []) + WithScore(s[1..], v)
  }

  /**
   * Places `x` after every leading item whose score is at least `x.score`:
   * in a sorted list that is after all items with an equal score, so an item
   * that came later stays later.
   */
  function Insert(s: seq<ResultItem>, x: ResultItem): seq<ResultItem>
  {
    if s == [] then [x]
    else if s[0].score >= x.score then [s[0]] + Insert(s[1..], x)
    else [x] + s
  }

  /** The stable descending sort by score. */
  function SortByScore(s: seq<ResultItem>): seq<ResultItem>
  {
    if s == [] then [] else Insert(SortByScore(s[..|s| - 1]), s[|s| - 1])
  }

  /**
   * `s[:k]`, with `None` meaning no bound and a negative `k` counting
   * from the end, as Python's slice does.
   */
  function TopK(s: seq<ResultItem>, k: Option<int>): (r: seq<ResultItem>)
    ensures r <= s
    ensures k.None? ==> r == s
    ensures k.Some? && 0 <= k.value ==> |r| == if k.value < |s| then k.value else |s|
    ensures k.Some? && k.value < 0 ==> |r| == if |s| + k.value < 0 then 0 else |s| + k.value
  {
    if k.None? then s
    else if 0 <= k.value then (if k.value < |s| then s[..k.value] else s)
    else if |s| + k.value < 0 then []
    else s[..|s| + k.value]
  }

  /** The ranked results: sorted, then cut to `top_k`. */
  function Rank(s: seq<ResultItem>, k: Option<int>): seq<ResultItem>
  {
    TopK(SortByScore(s), k)
  }

  lemma {:induction false} InsertPermutation(s: seq<ResultItem>, x: ResultItem)
    ensures multiset(Insert(s, x)) == multiset(s) + multiset{x}
  {
    if s != [] && s[0].score >= x.score {
      InsertPermutation(s[1..], x);
      assert s == [s[0]] + s[1..];
    }
  }

  lemma {:induction false} InsertSorted(s: seq<ResultItem>, x: ResultItem)
    requires SortedDesc(s)
    ensures SortedDesc(Insert(s, x))
  {
    if s != [] && s[0].score >= x.score {
      InsertSorted(s[1..], x);
      InsertPermutation(s[1..], x);
      var r := Insert(s, x);
      forall j | 1 <= j < |r| ensures r[0].score >= r[j].score {
        assert r[j] in multiset(Insert(s[1..], x));
        assert r[j] == x || r[j] in s[1..];
      }
    }
  }

  /** `SortByScore` returns the same items. */
  lemma {:induction false} SortPermutation(s: seq<ResultItem>)
    ensures multiset(SortByScore(s)) == multiset(s)
  {
    if s != [] {
      var n := |s| - 1;
      assert SortByScore(s) == Insert(SortByScore(s[..n]), s[n]);
      SortPermutation(s[..n]);
      InsertPermutation(SortByScore(s[..n]), s[n]);
      assert multiset(s) == multiset(s[..n]) + multiset{s[n]} by {
        assert s == s[..n] + [s[n]];
      }
    }
  }

  /** `SortByScore` returns them in non-increasing score order. */
  lemma {:induction false} SortSorted(s: seq<ResultItem>)
    ensures SortedDesc(SortByScore(s))
  {
    if s != [] {
      SortSorted(s[..|s| - 1]);
      InsertSorted(SortByScore(s[..|s| - 1]), s[|s| - 1]);
    }
  }

  lemma {:induction false} WithScoreAppend(s: seq<ResultItem>, t: seq<ResultItem>, v: real)
    ensures WithScore(s + t, v) == WithScore(s, v) + WithScore(t, v)
  {
    if s != [] {
      WithScoreAppend(s[1..], t, v);
      assert (s + t)[1..] == s[1..] + t;
    } else {
      assert s + t == t;
    }
  }

  lemma {:induction false} WithScoreBelow(s: seq<ResultItem>, v: real)
    requires forall i :: 0 <= i < |s| ==> s[i].score < v
    ensures WithScore(s, v) == []
  {
    if s != [] { WithScoreBelow(s[1..], v); }
  }

  /** Inserting `x` adds it after the items of `s` that share its score. */
  lemma {:induction false} WithScoreInsert(s: seq<ResultItem>, x: ResultItem, v: real)
    requires SortedDesc(s)
    ensures WithScore(Insert(s, x), v) == WithScore(s, v) + WithScore([x], v)
  {
    if s == [] {
    } else if s[0].score >= x.score {
      WithScoreInsert(s[1..], x, v);
      WithScoreInsertAfterHead(s, x, v);
    } else {
      WithScoreInsertFront(s, x, v);
    }
  }

  /** When `x` goes after the head, the head's contribution comes first on both sides. */
  lemma WithScoreInsertAfterHead(s: seq<ResultItem>, x: ResultItem, v: real)
    requires s != [] && s[0].score >= x.score
    requires WithScore(Insert(s[1..], x), v) == WithScore(s[1..], v) + WithScore([x], v)
    ensures WithScore(Insert(s, x), v) == WithScore(s, v) + WithScore([x], v)
  {
    var r := Insert(s, x);
    assert r[0] == s[0] && r[1..] == Insert(s[1..], x);
    var h: seq<ResultItem> := if s[0].score == v then [s[0]] else [];
    assert WithScore(r, v) == h + WithScore(r[1..], v);
    assert WithScore(s, v) == h + WithScore(s[1..], v);
  }

  /** When `x` scores above the whole sorted list, no item of the list shares its score. */
  lemma WithScoreInsertFront(s: seq<ResultItem>, x: ResultItem, v: real)
    requires SortedDesc(s) && s != [] && s[0].score < x.score
    ensures WithScore(Insert(s, x), v) == WithScore(s, v) + WithScore([x], v)
  {
    assert Insert(s, x) == [x] + s;
    WithScoreAppend([x], s, v);
    if x.score == v {
      WithScoreBelow(s, v);
    } else {
      assert WithScore([x], v) == [];
    }
  }

  /**
   * Stability: for every score, the items with that score appear in
   * `SortByScore(s)` in the same order as in `s`.
   */
  lemma {:induction false} SortStable(s: seq<ResultItem>, v: real)
    ensures WithScore(SortByScore(s), v) == WithScore(s, v)
  {
    if s != [] {
      var n := |s| - 1;
      assert SortByScore(s) == Insert(SortByScore(s[..n]), s[n]);
      SortStable(s[..n], v);
      SortSorted(s[..n]);
      WithScoreInsert(SortByScore(s[..n]), s[n], v);
      assert WithScore(s, v) == WithScore(s[..n], v) + WithScore([s[n]], v) by {
        assert s == s[..n] + [s[n]];
        WithScoreAppend(s[..n], [s[n]], v);
      }
    }
  }

  lemma WithScoreHead(s: seq<ResultItem>)
    requires s != []
    ensures WithScore(s, s[0].score) == [s[0]] + WithScore(s[1..], s[0].score)
  {
  }

  /**
   * Two sorted sequences that agree on the items of every score are equal,
   * so a sorted sequence is fixed by what each score class holds.
   */
  lemma {:induction false} SortedUnique(t1: seq<ResultItem>, t2: seq<ResultItem>)
    requires SortedDesc(t1) && SortedDesc(t2)
    requires forall v :: WithScore(t1, v) == WithScore(t2, v)
    ensures t1 == t2
    decreases |t1| + |t2|
  {
    if t1 == [] && t2 == [] {
    } else if t1 == [] {
      WithScoreHead(t2);
      assert false;
    } else if t2 == [] {
      WithScoreHead(t1);
      assert false;
    } else {
      SortedUniqueHead(t1, t2);
      SortedUniqueTail(t1, t2);
      SortedUnique(t1[1..], t2[1..]);
      assert t1 == [t1[0]] + t1[1..] && t2 == [t2[0]] + t2[1..];
    }
  }

  /** Two sorted sequences that agree on the items of every score start with the same item. */
  lemma SortedUniqueHead(t1: seq<ResultItem>, t2: seq<ResultItem>)
    requires t1 != [] && t2 != []
    requires SortedDesc(t1) && SortedDesc(t2)
    requires forall v :: WithScore(t1, v) == WithScore(t2, v)
    ensures t1[0] == t2[0]
  {
    var m1, m2 := t1[0].score, t2[0].score;
    WithScoreHead(t1);
    WithScoreHead(t2);
    assert m1 >= m2 by {
      assert t2[0] in WithScore(t1, m2);
    }
    assert m2 >= m1 by {
      assert t1[0] in WithScore(t2, m1);
    }
    assert t1[0] == WithScore(t1, m1)[0] == WithScore(t2, m1)[0] == t2[0];
  }

  /** Dropping the same first item keeps the items of every score in agreement. */
  lemma SortedUniqueTail(t1: seq<ResultItem>, t2: seq<ResultItem>)
    requires t1 != [] && t2 != [] && t1[0] == t2[0]
    requires forall v :: WithScore(t1, v) == WithScore(t2, v)
    ensures forall v :: WithScore(t1[1..], v) == WithScore(t2[1..], v)
  {
    forall v ensures WithScore(t1[1..], v) == WithScore(t2[1..], v) {
      assert WithScore(t1, v) == WithScore(t2, v);
      if t1[0].score == v {
        assert WithScore(t1[1..], v) == WithScore(t1, v)[1..];
        assert WithScore(t2[1..], v) == WithScore(t2, v)[1..];
      } else {
        assert WithScore(t1, v) == [] + WithScore(t1[1..], v) == WithScore(t1[1..], v);
        assert WithScore(t2, v) == [] + WithScore(t2[1..], v) == WithScore(t2[1..], v);
      }
    }
  }

  /**
   * `SortByScore` is the only stable descending sort: any sorted sequence
   * that lists the items of each score in their order in `s` is
   * `SortByScore(s)`.
   */
  lemma StableSortUnique(s: seq<ResultItem>, t: seq<ResultItem>)
    requires SortedDesc(t)
    requires forall v :: WithScore(t, v) == WithScore(s, v)
    ensures t == SortByScore(s)
  {
    SortSorted(s);
    forall v ensures WithScore(t, v) == WithScore(SortByScore(s), v) {
      SortStable(s, v);
    }
    SortedUnique(t, SortByScore(s));
  }

  /** Two items with the same score stay in their order. */
  lemma SortTiedPair(a: ResultItem, b: ResultItem)
    requires a.score == b.score
    ensures SortByScore([a, b]) == [a, b]
  {
    assert [a, b][..1] == [a];
    SortSingle(a);
    assert Insert([a], b) == [a] + Insert([], b);
  }

  lemma SortSingle(a: ResultItem)
    ensures SortByScore([a]) == [a]
  {
    assert [a][..0] == [];
  }

  /**
   * What `Rank` returns: the first items of the stable descending sort, so
   * sorted, exactly `min(top_k, len)` of them for `top_k >= 0`, and none for
   * `top_k = 0`.
   */
  lemma RankProperties(s: seq<ResultItem>, k: Option<int>)
    ensures Rank(s, k) <= SortByScore(s)
    ensures SortedDesc(Rank(s, k))
    ensures |Rank(s, k)| <= |s|
    ensures k.Some? && 0 <= k.value ==> |Rank(s, k)| == if k.value < |s| then k.value else |s|
    ensures k == Some(0) ==> Rank(s, k) == []
  {
    var sorted := SortByScore(s);
    SortSorted(s);
    SortPermutation(s);
    assert |sorted| == |multiset(sorted)|;
  }

  /**
   * The results are candidates, each candidate left out scores no higher than
   * every one kept, and when the bound does not cut the results are all the
   * candidates.
   */
  lemma RankSelectsTop(s: seq<ResultItem>, k: Option<int>)
    ensures forall x :: x in Rank(s, k) ==> x in s
    ensures forall x, y :: x in Rank(s, k) && y in multiset(s) - multiset(Rank(s, k)) ==> x.score >= y.score
    ensures (k.None? || |s| <= k.value) ==> multiset(Rank(s, k)) == multiset(s)
  {
    var sorted := SortByScore(s);
    var r := Rank(s, k);
    SortSorted(s);
    SortPermutation(s);
    assert |sorted| == |multiset(sorted)|;
    forall x | x in r ensures x in s {
      assert x in multiset(sorted);
    }
    PrefixIsTop(sorted, r);
  }

  /** In a sorted list, every item of a prefix scores at least as high as every item after it. */
  lemma PrefixIsTop(sorted: seq<ResultItem>, r: seq<ResultItem>)
    requires SortedDesc(sorted) && r <= sorted
    ensures forall x, y :: x in r && y in multiset(sorted) - multiset(r) ==> x.score >= y.score
  {
    var rest := sorted[|r|..];
    assert sorted == r + rest;
    assert multiset(sorted) - multiset(r) == multiset(rest);
    forall x, y | x in r && y in multiset(sorted) - multiset(r) ensures x.score >= y.score {
      assert y in rest;
      var i :| 0 <= i < |r| && r[i] == x;
      var j :| 0 <= j < |rest| && rest[j] == y;
      assert sorted[i] == x && sorted[|r| + j] == y;
    }
  }

  /**
   * Ties keep their fetch order: the items of the result with a given score
   * are the first ones with that score among the candidates.
   */
  lemma RankKeepsTieOrder(s: seq<ResultItem>, k: Option<int>, v: real)
    ensures WithScore(Rank(s, k), v) <= WithScore(s, v)
  {
    var sorted := SortByScore(s);
    SortStable(s, v);
    var r := Rank(s, k);
    assert sorted == r + sorted[|r|..];
    WithScoreAppend(r, sorted[|r|..], v);
  }
}
