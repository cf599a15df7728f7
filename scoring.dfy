/** The score of a retained row against the query. */
module Scoring {

  import opened Levels
  import opened Catalog

  function Abs(x: int): int
  {
    if x < 0 then -x else x
  }

  /**
   * `score(row)`: the negated Manhattan distance between the row and the
   * query over Strength, Water Resistance, Cost and Durability. Higher is
   * closer; 0 is the best there is, reached exactly by a perfect match.
   */
  function Score(it: Item, q: Query): (s: int)
    ensures s <= 0
    ensures s == 0 <==>
      it.strength == q.strength && it.waterResistance == q.waterResistance &&
      it.cost == q.cost && it.durability == q.durability
  {
    - Abs(it.strength - q.strength)
    - Abs(it.waterResistance - q.waterResistance)
    - Abs(it.cost - q.cost)
    - Abs(it.durability - q.durability)
  }

  /** Two levels on the scale are 0, 3 or 6 apart: three times 0, 1 or 2. */
  lemma GapOnScale(a: int, b: int) returns (steps: int)
    requires InScale(a) && InScale(b)
    ensures 0 <= steps <= 2 && Abs(a - b) == 3 * steps
  {
    steps := Abs(a - b) / 3;
  }

  /**
   * On the 3-6-9 scale a score is -3 times a number of steps between 0 and
   * 8: it lies between -24 and 0 and is a multiple of 3.
   */
  lemma ScoreOnScale(it: Item, q: Query) returns (steps: nat)
    requires ItemInScale(it) && QueryInScale(q)
    ensures steps <= 8 && Score(it, q) == -3 * steps
    ensures -24 <= Score(it, q) <= 0
  {
    var s := GapOnScale(it.strength, q.strength);
    var w := GapOnScale(it.waterResistance, q.waterResistance);
    var c := GapOnScale(it.cost, q.cost);
    var d := GapOnScale(it.durability, q.durability);
    steps := s + w + c + d;
  }

  /** A retained row together with its score (the added `score` column). */
  datatype Candidate = Candidate(item: Item, score: int)

  /** The retained rows with the `score` column filled in, in the same order. */
  function Scored(items: seq<Item>, q: Query): seq<Candidate>
  {
    seq(|items|, j requires 0 <= j < |items| => Candidate(items[j], Score(items[j], q)))
  }

}
