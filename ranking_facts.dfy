/**
 * What a recommendation run promises, stated over every result that the
 * recommend handler's contract allows.
 */
module RankingFacts {

  import opened Wrappers
  import opened Levels
  import opened Catalog
  import opened Scoring
  import opened Ranking

  /** The candidates the handler ranks for a catalog and a query. */
  function Pool(catalog: seq<Row>, q: Query): seq<Candidate>
  {
    Scored(Filtered(catalog), q)
  }

  /** A candidate of the pool is a mappable catalog row, mapped and scored. */
  lemma PoolMembers(catalog: seq<Row>, q: Query, c: Candidate)
    requires c in Pool(catalog, q)
    ensures c.item.index < |catalog| && Mappable(catalog[c.item.index])
    ensures MapRow(catalog[c.item.index], c.item.index) == Some(c.item)
    ensures c.score == Score(c.item, q)
  {
    FilteredExactly(catalog);
    var k :| 0 <= k < |Pool(catalog, q)| && Pool(catalog, q)[k] == c;
    assert c.item == Filtered(catalog)[k];
  }

  /** Two pool candidates about the same catalog row are the same candidate. */
  lemma PoolIndicesDistinct(catalog: seq<Row>, q: Query)
    ensures forall i, j :: 0 <= i < j < |Pool(catalog, q)| ==>
      Pool(catalog, q)[i].item.index != Pool(catalog, q)[j].item.index
  {
    FilteredExactly(catalog);
  }

  /**
   * Every recommended row is a catalog row whose four labels all map, and it
   * carries that row's fields, its numbers and its score, which lies between
   * -24 and 0 and is a multiple of 3. The second ensures is a corollary of
   * the first, spelled out: a row with an unmapped label is never
   * recommended, however close its other attributes are.
   */
  lemma RecommendedComeFromCatalog(catalog: seq<Row>, q: Query, top: seq<Candidate>, k: nat)
    requires QueryInScale(q)
    requires IsTopK(top, Pool(catalog, q), k)
    ensures forall t :: t in top ==>
      && t.item.index < |catalog| && Mappable(catalog[t.item.index])
      && MapRow(catalog[t.item.index], t.item.index) == Some(t.item)
      && t.score == Score(t.item, q)
      && -24 <= t.score <= 0 && t.score % 3 == 0
    ensures forall i, t :: 0 <= i < |catalog| && !Mappable(catalog[i]) && t in top ==>
      t.item.index != i
  {
    forall t | t in top
      ensures && t.item.index < |catalog| && Mappable(catalog[t.item.index])
              && MapRow(catalog[t.item.index], t.item.index) == Some(t.item)
              && t.score == Score(t.item, q)
              && -24 <= t.score <= 0 && t.score % 3 == 0
    {
      assert t in multiset(top);
      PoolMembers(catalog, q, t);
      var steps := ScoreOnScale(t.item, q);
      assert steps in {0, 1, 2, 3, 4, 5, 6, 7, 8};
    }
  }

  /** In a sequence without repeats, every value occurs at most once. */
  lemma {:induction false} AtMostOnce(s: seq<Candidate>, x: Candidate)
    requires forall i, j :: 0 <= i < j < |s| ==> s[i] != s[j]
    ensures multiset(s)[x] <= 1
  {
    if s != [] {
      AtMostOnce(s[1..], x);
      assert s == [s[0]] + s[1..];
      if s[0] == x {
        assert x !in s[1..];
      }
    }
  }

  /** A value at two positions occurs at least twice. */
  lemma Twice(s: seq<Candidate>, i: nat, j: nat)
    requires i < j < |s| && s[i] == s[j]
    ensures multiset(s)[s[i]] >= 2
  {
    assert s == s[..j] + [s[j]] + s[j + 1..];
    assert s[i] in s[..j];
  }

  /** A best-k choice from a pool without repeats has no repeats. */
  lemma TopKDistinct(top: seq<Candidate>, pool: seq<Candidate>, k: nat)
    requires IsTopK(top, pool, k)
    requires forall i, j :: 0 <= i < j < |pool| ==> pool[i] != pool[j]
    ensures forall i, j :: 0 <= i < j < |top| ==> top[i] != top[j]
  {
    forall i, j | 0 <= i < j < |top|
      ensures top[i] != top[j]
    {
      if top[i] == top[j] {
        Twice(top, i, j);
        AtMostOnce(pool, top[i]);
        assert false;
      }
    }
  }

  /** No catalog row is recommended twice. */
  lemma RecommendedDistinct(catalog: seq<Row>, q: Query, top: seq<Candidate>, k: nat)
    requires IsTopK(top, Pool(catalog, q), k)
    ensures forall i, j :: 0 <= i < j < |top| ==> top[i].item.index != top[j].item.index
  {
    var pool := Pool(catalog, q);
    PoolIndicesDistinct(catalog, q);
    TopKDistinct(top, pool, k);
    forall i, j | 0 <= i < j < |top|
      ensures top[i].item.index != top[j].item.index
    {
      assert top[i] in multiset(top) && top[j] in multiset(top);
      var a :| 0 <= a < |pool| && pool[a] == top[i];
      var b :| 0 <= b < |pool| && pool[b] == top[j];
      assert a != b;
    }
  }

  /** The first recommendation scores at least as well as every candidate. */
  lemma FirstIsBest(top: seq<Candidate>, pool: seq<Candidate>, k: nat)
    requires IsTopK(top, pool, k) && top != []
    ensures forall c :: c in pool ==> c.score <= top[0].score
  {
  }

  /**
   * The result is empty exactly when no catalog row has all four labels
   * mapped.
   */
  lemma EmptyIffNothingRetained(catalog: seq<Row>, q: Query, top: seq<Candidate>)
    requires IsTopK(top, Pool(catalog, q), TOP_K)
    ensures top == [] <==> forall i :: 0 <= i < |catalog| ==> !Mappable(catalog[i])
  {
    FilteredExactly(catalog);
    var f := Filtered(catalog);
    if exists i :: 0 <= i < |catalog| && Mappable(catalog[i]) {
      var i :| 0 <= i < |catalog| && Mappable(catalog[i]);
      var l :| 0 <= l < |f| && f[l].index == i;
      assert |Pool(catalog, q)| > 0;
    }
    if top != [] {
      assert top[0] in multiset(top);
      PoolMembers(catalog, q, top[0]);
    }
  }

  /**
   * When some catalog row matches the query on all four attributes, the
   * first recommendation is a perfect match with score 0.
   */
  lemma ExactMatchRanksFirst(catalog: seq<Row>, q: Query, top: seq<Candidate>, i: nat)
    requires IsTopK(top, Pool(catalog, q), TOP_K)
    requires i < |catalog| && MapRow(catalog[i], i).Some?
    requires MapRow(catalog[i], i).value.strength == q.strength
    requires MapRow(catalog[i], i).value.cost == q.cost
    requires MapRow(catalog[i], i).value.waterResistance == q.waterResistance
    requires MapRow(catalog[i], i).value.durability == q.durability
    ensures top != [] && top[0].score == 0
  {
    var pool := Pool(catalog, q);
    FilteredExactly(catalog);
    var f := Filtered(catalog);
    var l :| 0 <= l < |f| && f[l].index == i;
    assert MapRow(catalog[i], i) == Some(f[l]);
    assert pool[l].score == 0;
    assert top != [];
    FirstIsBest(top, pool, TOP_K);
    assert pool[l] in pool;
    assert top[0] in multiset(top);
    PoolMembers(catalog, q, top[0]);
  }

  /** Three bricks rows that differ only in their Strength label. */
  function Bricks(): seq<Row>
  {
    [ Row("Brick L", "Walls", "Yes", "Low", "Medium", "Medium", "Medium"),
      Row("Brick M", "Walls", "Yes", "Medium", "Medium", "Medium", "Medium"),
      Row("Brick H", "Walls", "Yes", "High", "Medium", "Medium", "Medium") ]
  }

  /** All three rows map; the Medium row scores 0 and the other two -3. */
  lemma BricksPool()
    ensures Pool(Bricks(), ToQuery("Medium", "Medium", "Medium", "Medium")) ==
      [ Candidate(Item(0, "Brick L", "Walls", "Yes", 3, 6, 6, 6), -3),
        Candidate(Item(1, "Brick M", "Walls", "Yes", 6, 6, 6, 6), 0),
        Candidate(Item(2, "Brick H", "Walls", "Yes", 9, 6, 6, 6), -3) ]
  {
    var c := Bricks();
    var low := Item(0, "Brick L", "Walls", "Yes", 3, 6, 6, 6);
    var mid := Item(1, "Brick M", "Walls", "Yes", 6, 6, 6, 6);
    var high := Item(2, "Brick H", "Walls", "Yes", 9, 6, 6, 6);
    assert Filtered(c[..1]) == [low] by {
      assert c[..1][..0] == [];
    }
    assert Filtered(c[..2]) == [low, mid] by {
      assert c[..2][..1] == c[..1];
    }
    assert Filtered(c) == [low, mid, high] by {
      assert c[..2] == c[..|c| - 1];
    }
  }

  /**
   * From three distinct candidates of which one scores strictly best, a
   * best-six choice is that one followed by the other two in some order.
   */
  lemma TopOfThree(top: seq<Candidate>, a: Candidate, m: Candidate, h: Candidate)
    requires IsTopK(top, [a, m, h], TOP_K)
    requires a != m && m != h && a != h
    requires a.score < m.score && h.score < m.score
    ensures |top| == 3 && top[0] == m
    ensures (top[1] == a && top[2] == h) || (top[1] == h && top[2] == a)
  {
    var pool := [a, m, h];
    TopKDistinct(top, pool, TOP_K);
    forall t | t in top
      ensures t == a || t == m || t == h
    {
      assert t in multiset(top);
    }
    FirstIsBest(top, pool, TOP_K);
    assert m in pool;
    assert top[1] in top && top[2] in top;
  }

  /**
   * Asking for Medium on every attribute, the Medium row comes first with
   * score 0; the Low and the High row follow, both with score -3, in either
   * order.
   */
  lemma BricksScenario(top: seq<Candidate>)
    requires IsTopK(top, Pool(Bricks(), ToQuery("Medium", "Medium", "Medium", "Medium")), TOP_K)
    ensures |top| == 3
    ensures top[0].item.name == "Brick M" && top[0].score == 0
    ensures top[1].score == -3 && top[2].score == -3
    ensures {top[1].item.name, top[2].item.name} == {"Brick L", "Brick H"}
  {
    BricksPool();
    var pool := Pool(Bricks(), ToQuery("Medium", "Medium", "Medium", "Medium"));
    TopOfThree(top, pool[0], pool[1], pool[2]);
  }
}
