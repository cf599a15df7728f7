/**
 * The categorical level scale of the recommendation page: the labels a user
 * picks from, the table that turns them into numbers, and the query built
 * from the four picks.
 */
module Levels {

  import opened Wrappers

  /** The fixed table `level_map` of material_recommendation/app.py. */
  function LevelMap(): map<string, int>
  {
    map["Low" := 3, "Medium" := 6, "High" := 9]
  }

  /** The numbers a label can be mapped to. */
  predicate InScale(v: int)
  {
    v == 3 || v == 6 || v == 9
  }

  /**
   * Looking a label up in the table, as pandas `Series.map(level_map)` does
   * for one cell: an unknown label gives no number (NaN in pandas).
   */
  function Lookup(level: string): (r: Option<int>)
    ensures r.Some? <==> level == "Low" || level == "Medium" || level == "High"
    ensures r.Some? ==> InScale(r.value)
    ensures level == "Low" ==> r == Some(3)
    ensures level == "Medium" ==> r == Some(6)
    ensures level == "High" ==> r == Some(9)
  {
    if level in LevelMap() then Some(LevelMap()[level]) else None
  }

  /** The user's desired attribute profile, in numbers. */
  datatype Query = Query(strength: int, cost: int, waterResistance: int, durability: int)

  predicate QueryInScale(q: Query)
  {
    InScale(q.strength) && InScale(q.cost) && InScale(q.waterResistance) && InScale(q.durability)
  }

  /**
   * The four select boxes offer only the keys of the table, so each pick is
   * a key; the query holds the number the table gives each pick.
   */
  function ToQuery(strength: string, cost: string, waterResistance: string, durability: string): (q: Query)
    requires strength in LevelMap() && cost in LevelMap()
    requires waterResistance in LevelMap() && durability in LevelMap()
    ensures QueryInScale(q)
    ensures Lookup(strength) == Some(q.strength) && Lookup(cost) == Some(q.cost)
    ensures Lookup(waterResistance) == Some(q.waterResistance) && Lookup(durability) == Some(q.durability)
  {
    Query(LevelMap()[strength], LevelMap()[cost], LevelMap()[waterResistance], LevelMap()[durability])
  }

}
