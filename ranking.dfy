/**
 * The recommend handler: number the user's picks, map and filter a copy of
 * the chosen catalog, score every retained row, sort by score descending and
 * keep the first six.
 */
module Ranking {

  import opened Levels
  import opened Catalog
  import opened Scoring

  /** `head(6)`: how many recommendations are shown. */
  const TOP_K: nat := 6

  function Min(a: int, b: int): int
  {
    if a <= b then a else b
  }

  /** Scores never increase from first to last. */
  ghost predicate NonIncreasing(s: seq<Candidate>)
  {
    forall i, j :: 0 <= i < j < |s| ==> s[i].score >= s[j].score
  }

  /**
   * `top` is a best-k choice from `pool`: as many as k allows, ordered by
   * score, drawn from the pool, and scoring at least as well as every
   * candidate of the pool that was left out.
   */
  ghost predicate IsTopK(top: seq<Candidate>, pool: seq<Candidate>, k: nat)
  {
    && |top| == Min(k, |pool|)
    && NonIncreasing(top)
    && multiset(top) <= multiset(pool)
    && forall c, t :: c in pool && c !in top && t in top ==> c.score <= t.score
  }

  /** The position of a highest score in `a[from..]`. */
  method MaxIndexFrom(a: array<Candidate>, from: nat) returns (m: nat)
    requires from < a.Length
    ensures from <= m < a.Length
    ensures forall j :: from <= j < a.Length ==> a[j].score <= a[m].score
  {
    m := from;
    var j := from + 1;
    while j < a.Length
      invariant from <= m < j <= a.Length
      invariant forall p :: from <= p < j ==> a[p].score <= a[m].score
    {
      if a[j].score > a[m].score {
        m := j;
      }
      j := j + 1;
    }
  }

  method Swap(a: array<Candidate>, i: nat, j: nat)
    requires i < a.Length && j < a.Length
    modifies a
    ensures a[..] == old(a[..])[i := old(a[j])][j := old(a[i])]
    ensures multiset(a[..]) == multiset(old(a[..]))
  {
    a[i], a[j] := a[j], a[i];
  }

  /**
   * `sort_values(by="score", ascending=False)`: the scores end up
   * non-increasing and the rows are a permutation of the input. Nothing is
   * promised about the order of equal scores.
   */
  method SortByScoreDescending(a: array<Candidate>)
    modifies a
    ensures NonIncreasing(a[..])
    ensures multiset(a[..]) == multiset(old(a[..]))
  {
    var i := 0;
    while i < a.Length
      invariant 0 <= i <= a.Length
      invariant forall p, r :: 0 <= p < r < i ==> a[p].score >= a[r].score
      invariant forall p, r :: 0 <= p < i <= r < a.Length ==> a[p].score >= a[r].score
      invariant multiset(a[..]) == multiset(old(a[..]))
    {
      var m := MaxIndexFrom(a, i);
      Swap(a, i, m);
      i := i + 1;
    }
  }

  /** The first k of a sorted permutation of the pool are a best-k choice. */
  lemma PrefixOfSortedIsTopK(s: seq<Candidate>, pool: seq<Candidate>, k: nat)
    requires NonIncreasing(s) && multiset(s) == multiset(pool)
    ensures IsTopK(s[..Min(k, |s|)], pool, k)
  {
    var n := Min(k, |s|);
    var top := s[..n];
    assert |s| == |multiset(s)| == |multiset(pool)| == |pool|;
    assert s == top + s[n..];
    assert multiset(s) == multiset(top) + multiset(s[n..]);
    forall c, t | c in pool && c !in top && t in top
      ensures c.score <= t.score
    {
      assert c in multiset(s);
      var j :| 0 <= j < |s| && s[j] == c;
      var i :| 0 <= i < n && top[i] == t;
      assert !(j < n);
    }
  }

  /**
   * The recommend handler. The catalog is only read (there is no modifies
   * clause): the mapping runs on a copy of it, as `.copy()` does.
   */
  method Recommend(catalog: array<Row>, strength: string, cost: string,
                   waterResistance: string, durability: string)
    returns (top: seq<Candidate>)
    requires strength in LevelMap() && cost in LevelMap()
    requires waterResistance in LevelMap() && durability in LevelMap()
    ensures IsTopK(top, Scored(Filtered(catalog[..]),
                               ToQuery(strength, cost, waterResistance, durability)), TOP_K)
  {
    var q := ToQuery(strength, cost, waterResistance, durability);
    var df := MapAndDrop(catalog[..]);
    var a := new Candidate[|df|](j requires 0 <= j < |df| => Candidate(df[j], Score(df[j], q)));
    assert a[..] == Scored(df, q);
    ghost var pool := a[..];
    SortByScoreDescending(a);
    PrefixOfSortedIsTopK(a[..], pool, TOP_K);
    top := a[..Min(TOP_K, a.Length)];
  }

}
