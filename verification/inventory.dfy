/** The inventory record shared by every view, and the record without an id
    that the entry forms and the spreadsheet import produce. */
module Inventory {

  /** One inventory record. `flagged` is the "ggadegi" marker; a record that does
      not carry it reads as unflagged. */
  datatype Item = Item(
    id: string,
    name: string,
    category: string,
    warehouse: string,
    rack: string,
    quantity: int,
    palletCount: int,
    flagged: bool)

  /** A record as submitted for creation: every field but the id (and no flag). */
  datatype Draft = Draft(
    name: string,
    category: string,
    warehouse: string,
    rack: string,
    quantity: int,
    palletCount: int)

  /** `{ ...draft, id }`: the draft's fields, the given id, and no flag. */
  function WithId(d: Draft, id: string): (it: Item)
    ensures DraftOf(it) == d && it.id == id && !it.flagged
  {
    Item(id, d.name, d.category, d.warehouse, d.rack, d.quantity, d.palletCount, false)
  }

  /** The descriptive fields of a record. */
  function DraftOf(it: Item): Draft
  {
    Draft(it.name, it.category, it.warehouse, it.rack, it.quantity, it.palletCount)
  }

  function Ids(items: seq<Item>): (r: seq<string>)
    ensures |r| == |items|
    ensures forall i | 0 <= i < |items| :: r[i] == items[i].id
  {
    seq(|items|, i requires 0 <= i < |items| => items[i].id)
  }

  /** No two records share an id. */
  predicate DistinctIds(items: seq<Item>)
  {
    forall i, j | 0 <= i < j < |items| :: items[i].id != items[j].id
  }

  /** The warehouses that hold at least one record. */
  function WarehouseSet(items: seq<Item>): set<string>
  {
    set x | x in items :: x.warehouse
  }
}
