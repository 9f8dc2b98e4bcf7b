/** The record normalisation of the spreadsheet web-app client (src/lib/sheets.ts):
    a fetched record keeps its text fields, its quantity and pallet count are
    coerced to numbers, and its flag to a boolean. A failed fetch reads as an
    empty inventory. */
module Sheets {
  import opened Text
  import opened Js
  import opened Inventory
  import BulkImport

  /** A record as the web app returns it: the text fields as stored, and the
      numeric and flag columns as whatever value the sheet cell holds (the flag
      column may be missing, which reads as `undefined`). */
  datatype RawRecord = RawRecord(
    id: string,
    name: string,
    category: string,
    warehouse: string,
    rack: string,
    quantity: Value,
    palletCount: Value,
    isGgadegi: Value)

  /** What the fetch produced: a failure of any kind (network, HTTP status, JSON),
      or the decoded array of records. */
  datatype Response = Failed | Fetched(records: seq<RawRecord>)

  /** `v === true || String(v).toLowerCase() === 'true'`. */
  predicate Flag(v: Value)
  {
    v == Bool(true) || Lower(ToText(v)) == "true"
  }

  /** The flag is set exactly for the boolean `true` and for text that reads "true"
      in any mix of letter case; anything else, a missing value included, clears it. */
  lemma FlagIff(v: Value)
    ensures Flag(v) <==> v == Bool(true) || (v.Str? && Lower(v.s) == "true")
  {
    if v.Int? {
      var t := ToText(v);
      assert Lower(t)[0] == LowerChar(t[0]);
      assert "true"[0] == 't';
    } else if v == Undefined {
      assert Lower("undefined")[0] == 'u';
    } else if v == Null {
      assert Lower("null")[0] == 'n';
    } else if v == Bool(false) {
      assert |Lower("false")| == 5;
    }
  }

  /** One record of the `map`: the text fields copied, the numbers coerced with 0
      as the fallback for both, the flag coerced. */
  function Normalize(raw: RawRecord): (it: Item)
    ensures it.id == raw.id && it.name == raw.name && it.category == raw.category
    ensures it.warehouse == raw.warehouse && it.rack == raw.rack
    ensures ToNumber(raw.quantity).Finite? ==> it.quantity == ToNumber(raw.quantity).v
    ensures !ToNumber(raw.quantity).Finite? ==> it.quantity == 0
    ensures ToNumber(raw.palletCount).Finite? ==> it.palletCount == ToNumber(raw.palletCount).v
    ensures !ToNumber(raw.palletCount).Finite? ==> it.palletCount == 0
    ensures it.flagged <==>
      (raw.isGgadegi == Bool(true) || (raw.isGgadegi.Str? && Lower(raw.isGgadegi.s) == "true"))
  {
    FlagIff(raw.isGgadegi);
    Item(raw.id, raw.name, raw.category, raw.warehouse, raw.rack,
      NumberOr(raw.quantity, 0), NumberOr(raw.palletCount, 0), Flag(raw.isGgadegi))
  }

  /** `getInventory()`: every fetched record normalised, in order; a failure gives
      the empty list. */
  function GetInventory(resp: Response): (items: seq<Item>)
    ensures resp.Failed? ==> items == []
    ensures resp.Fetched? ==> |items| == |resp.records|
    ensures resp.Fetched? ==> forall i | 0 <= i < |items| :: items[i] == Normalize(resp.records[i])
  {
    match resp
    case Failed => []
    case Fetched(rs) => seq(|rs|, i requires 0 <= i < |rs| => Normalize(rs[i]))
  }

  /** The record as the sheet would hold it after a normalised write: numbers as
      numbers, the flag as a boolean. */
  function Raw(it: Item): (raw: RawRecord)
    ensures raw.id == it.id
  {
    RawRecord(it.id, it.name, it.category, it.warehouse, it.rack,
      Int(it.quantity), Int(it.palletCount), Bool(it.flagged))
  }

  /** Normalising a record stored in normalised form gives the record back. */
  lemma NormalizeRaw(it: Item)
    ensures Normalize(Raw(it)) == it
  {
    FlagIff(Bool(it.flagged));
  }

  /** Normalisation is idempotent. */
  lemma NormalizeIdempotent(raw: RawRecord)
    ensures Normalize(Raw(Normalize(raw))) == Normalize(raw)
  {
    NormalizeRaw(Normalize(raw));
  }

  /** Fetching records stored in normalised form gives exactly those records. */
  lemma GetInventoryRoundTrip(items: seq<Item>)
    ensures GetInventory(Fetched(seq(|items|, i requires 0 <= i < |items| => Raw(items[i])))) == items
  {
    var rs := seq(|items|, i requires 0 <= i < |items| => Raw(items[i]));
    forall i | 0 <= i < |items| ensures GetInventory(Fetched(rs))[i] == items[i] {
      NormalizeRaw(items[i]);
    }
  }

  /** Unlike the spreadsheet import, whose pallet count falls back to 1, a fetched
      record with an empty or non-numeric pallet count gets 0. */
  lemma PalletCountFallbacksDiffer(v: Value, raw: RawRecord, row: BulkImport.Row)
    requires !ToNumber(v).Finite?
    requires raw.palletCount == v
    requires |row| == 6 && row[5] == v
    ensures Normalize(raw).palletCount == 0
    ensures BulkImport.RowToDraft(row).palletCount == 1
  {
    assert BulkImport.CellAt(row, 5) == v;
  }

  /** Examples of the flag coercion. */
  lemma FlagExamples()
    ensures Flag(Bool(true)) && Flag(Str("TRUE")) && Flag(Str("True"))
    ensures !Flag(Bool(false)) && !Flag(Undefined) && !Flag(Str("yes")) && !Flag(Str(" true"))
  {
    FlagIff(Str("TRUE"));
    FlagIff(Str("True"));
    FlagIff(Bool(false));
    FlagIff(Undefined);
    assert Lower("yes")[0] == 'y';
    assert Lower(" true")[0] == ' ';
  }
}
