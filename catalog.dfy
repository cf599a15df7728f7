/**
 * Catalog rows as loaded from a product list, and the step that replaces the
 * four attribute labels of every row by their numbers and drops each row
 * with a label the level table does not know.
 */
module Catalog {

  import opened Wrappers
  import opened Levels

  /** One row of a product list, its attribute columns still labels. */
  datatype Row = Row(
    name: string, application: string, eco: string,
    strength: string, cost: string, waterResistance: string, durability: string)

  /**
   * A row that survived the mapping: its display fields, its four attributes
   * as numbers, and its position in the catalog (the DataFrame index, which
   * the mapping, the dropping and the sorting all keep).
   */
  datatype Item = Item(
    index: nat, name: string, application: string, eco: string,
    strength: int, cost: int, waterResistance: int, durability: int)

  /** Every attribute label of the row is a key of the level table. */
  predicate Mappable(row: Row)
  {
    row.strength in LevelMap() && row.cost in LevelMap() &&
    row.waterResistance in LevelMap() && row.durability in LevelMap()
  }

  predicate ItemInScale(it: Item)
  {
    InScale(it.strength) && InScale(it.cost) && InScale(it.waterResistance) && InScale(it.durability)
  }

  /** The item carries the row's display fields and the numbers of its labels. */
  predicate Carries(it: Item, row: Row)
  {
    it.name == row.name && it.application == row.application && it.eco == row.eco &&
    Lookup(row.strength) == Some(it.strength) && Lookup(row.cost) == Some(it.cost) &&
    Lookup(row.waterResistance) == Some(it.waterResistance) &&
    Lookup(row.durability) == Some(it.durability)
  }

  /** Mapping the four columns of one row; None when any cell becomes NaN. */
  function MapRow(row: Row, index: nat): (r: Option<Item>)
    ensures r.Some? <==> Mappable(row)
    ensures r.Some? ==> r.value.index == index && Carries(r.value, row) && ItemInScale(r.value)
  {
    match (Lookup(row.strength), Lookup(row.cost), Lookup(row.waterResistance), Lookup(row.durability))
    case (Some(s), Some(c), Some(w), Some(d)) =>
      Some(Item(index, row.name, row.application, row.eco, s, c, w, d))
    case _ => None
  }

  /** The catalog after the column mapping and `dropna`, in catalog order. */
  function Filtered(catalog: seq<Row>): (f: seq<Item>)
    ensures |f| <= |catalog|
  {
    if catalog == [] then []
    else
      var last := |catalog| - 1;
      Filtered(catalog[..last]) + match MapRow(catalog[last], last) {
        case Some(it) => [it]
        case None => []
      }
  }

  /** Every retained item is the mapped form of the catalog row at its index. */
  ghost predicate Sound(catalog: seq<Row>, f: seq<Item>)
  {
    forall k :: 0 <= k < |f| ==>
      f[k].index < |catalog| && MapRow(catalog[f[k].index], f[k].index) == Some(f[k])
  }

  /** Retained items keep catalog order. */
  ghost predicate InCatalogOrder(f: seq<Item>)
  {
    forall k, l :: 0 <= k < l < |f| ==> f[k].index < f[l].index
  }

  /** Every mappable catalog row is retained. */
  ghost predicate Complete(catalog: seq<Row>, f: seq<Item>)
  {
    forall i :: 0 <= i < |catalog| && Mappable(catalog[i]) ==>
      exists k :: 0 <= k < |f| && f[k].index == i
  }

  /**
   * The filter keeps exactly the rows whose four labels are all keys of the
   * level table, each mapped, in catalog order.
   */
  lemma {:induction false} FilteredExactly(catalog: seq<Row>)
    ensures Sound(catalog, Filtered(catalog))
    ensures InCatalogOrder(Filtered(catalog))
    ensures Complete(catalog, Filtered(catalog))
  {
    if catalog != [] {
      var last := |catalog| - 1;
      var init := catalog[..last];
      FilteredExactly(init);
      var f, g := Filtered(catalog), Filtered(init);
      assert f == g + match MapRow(catalog[last], last) { case Some(it) => [it] case None => [] };
      forall i | 0 <= i < |catalog| && Mappable(catalog[i])
        ensures exists k :: 0 <= k < |f| && f[k].index == i
      {
        if i < last {
          assert init[i] == catalog[i];
          var k :| 0 <= k < |g| && g[k].index == i;
          assert f[k] == g[k];
        } else {
          assert f[|g|].index == i;
        }
      }
    }
  }

  /** Every retained item has all four attributes on the 3-6-9 scale. */
  lemma {:induction false} FilteredInScale(catalog: seq<Row>)
    ensures forall k :: 0 <= k < |Filtered(catalog)| ==> ItemInScale(Filtered(catalog)[k])
  {
    FilteredExactly(catalog);
    var f := Filtered(catalog);
    forall k | 0 <= k < |f| ensures ItemInScale(f[k]) {
      assert MapRow(catalog[f[k].index], f[k].index) == Some(f[k]);
    }
  }

  /**
   * The recommend handler's mapping and `dropna` on its copy of the catalog,
   * one row at a time.
   */
  method MapAndDrop(catalog: seq<Row>) returns (kept: seq<Item>)
    ensures kept == Filtered(catalog)
  {
    kept := [];
    var i := 0;
    while i < |catalog|
      invariant 0 <= i <= |catalog|
      invariant kept == Filtered(catalog[..i])
    {
      assert catalog[..i + 1][..i] == catalog[..i];
      var r := MapRow(catalog[i], i);
      if r.Some? {
        kept := kept + [r.value];
      }
      i := i + 1;
    }
    assert catalog[..i] == catalog;
  }

}
