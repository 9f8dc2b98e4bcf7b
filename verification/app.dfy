/** The collection mutations and the home-screen search of the application
    shell (src/App.tsx). Every mutation is a pure function from the current list
    of records to the next one. */
module App {
  import opened Seqs
  import opened Text
  import opened Js
  import opened Inventory

  // ---------------------------------------------------------------- search

  /** One of name, warehouse, rack or category contains the lower-cased term `t`. */
  function SearchMatch(t: string): Item -> bool
  {
    (x: Item) =>
      || Contains(Lower(x.name), t)
      || Contains(Lower(x.warehouse), t)
      || Contains(Lower(x.rack), t)
      || Contains(Lower(x.category), t)
  }

  /** The home-screen search. A blank term shows everything; otherwise the term is
      lower-cased (but not trimmed) and matched against four fields. */
  function Search(items: seq<Item>, term: string): (r: seq<Item>)
    ensures IsBlank(term) ==> r == items
    ensures IsSubseq(r, items)
    ensures !IsBlank(term) ==> forall x | x in r ::
      || Contains(Lower(x.name), Lower(term))
      || Contains(Lower(x.warehouse), Lower(term))
      || Contains(Lower(x.rack), Lower(term))
      || Contains(Lower(x.category), Lower(term))
    ensures forall x | x in items ::
      (|| Contains(Lower(x.name), Lower(term))
       || Contains(Lower(x.warehouse), Lower(term))
       || Contains(Lower(x.rack), Lower(term))
       || Contains(Lower(x.category), Lower(term)))
      ==> multiset(r)[x] == multiset(items)[x]
  {
    if IsBlank(term) then
      SubseqRefl(items);
      items
    else
      FilterCount(items, SearchMatch(Lower(term)));
      FilterSubseq(items, SearchMatch(Lower(term)));
      Filter(items, SearchMatch(Lower(term)))
  }

  // ------------------------------------------------------------ id allocation

  /** `items.map(i => parseInt(i.id))`. */
  function ParsedIds(items: seq<Item>): (r: seq<Number>)
    ensures |r| == |items|
    ensures forall i | 0 <= i < |items| :: r[i] == ParseInt(items[i].id)
  {
    seq(|items|, i requires 0 <= i < |items| => ParseInt(items[i].id))
  }

  /** `Math.max(...items.map(i => parseInt(i.id)))`: -Infinity for an empty list and
      NaN as soon as one id does not start with a number. */
  function MaxId(items: seq<Item>): Number
  {
    MaxOf(ParsedIds(items))
  }

  /** Every id starts with a (possibly signed) decimal number. */
  predicate NumericIds(items: seq<Item>)
  {
    forall i | 0 <= i < |items| :: ParseInt(items[i].id).Finite?
  }

  lemma MaxIdFinite(items: seq<Item>)
    requires |items| > 0 && NumericIds(items)
    ensures MaxId(items).Finite?
    ensures forall i | 0 <= i < |items| :: ParseInt(items[i].id).v <= MaxId(items).v
    ensures exists i | 0 <= i < |items| :: ParseInt(items[i].id) == MaxId(items)
  {
    var ns := ParsedIds(items);
    assert !ns[0].NegInfinity?;
    assert NaN !in ns by {
      forall i | 0 <= i < |ns| ensures ns[i] != NaN {
      }
    }
  }

  /** `handleStockEntry`: appends the draft with id `max + 1`. */
  function StockEntry(items: seq<Item>, d: Draft): (r: seq<Item>)
    ensures |r| == |items| + 1
    ensures r[..|items|] == items
    ensures DraftOf(r[|items|]) == d && !r[|items|].flagged
  {
    items + [WithId(d, NumberText(Plus(MaxId(items), 1)))]
  }

  /** With numeric ids, the new id is one more than the largest one, differs from
      every existing id, and so keeps the ids distinct. */
  lemma StockEntryIdFresh(items: seq<Item>, d: Draft)
    requires |items| > 0 && NumericIds(items)
    ensures var n := ParseInt(StockEntry(items, d)[|items|].id);
      && n.Finite?
      && (forall i | 0 <= i < |items| :: ParseInt(items[i].id).v < n.v)
      && (exists i | 0 <= i < |items| :: ParseInt(items[i].id).v + 1 == n.v)
    ensures forall i | 0 <= i < |items| :: items[i].id != StockEntry(items, d)[|items|].id
    ensures DistinctIds(items) ==> DistinctIds(StockEntry(items, d))
  {
    MaxIdFinite(items);
    var m := MaxId(items).v;
    var r := StockEntry(items, d);
    assert r[|items|].id == Show(m + 1);
    ParseIntShow(m + 1);
    var i :| 0 <= i < |items| && ParseInt(items[i].id) == MaxId(items);
    assert ParseInt(items[i].id).v + 1 == m + 1;
    forall j | 0 <= j < |items| ensures items[j].id != r[|items|].id {
      assert ParseInt(items[j].id).v <= m;
    }
    if DistinctIds(items) {
      forall a, b | 0 <= a < b < |r| ensures r[a].id != r[b].id {
        if b < |items| {
          assert r[a] == items[a] && r[b] == items[b];
        } else {
          assert r[a] == items[a];
        }
      }
    }
  }

  /** The drafts with ids `base + 1`, `base + 2`, ... in order. */
  function Numbered(ds: seq<Draft>, base: Number): (r: seq<Item>)
    ensures |r| == |ds|
    ensures forall k | 0 <= k < |ds| :: DraftOf(r[k]) == ds[k] && !r[k].flagged
    ensures forall k | 0 <= k < |ds| :: r[k].id == NumberText(Plus(base, k + 1))
  {
    seq(|ds|, k requires 0 <= k < |ds| => WithId(ds[k], NumberText(Plus(base, k + 1))))
  }

  /** `handleBulkEntry`: appends the drafts in order, numbering them `max + 1`,
      `max + 2`, ... */
  function BulkEntry(items: seq<Item>, ds: seq<Draft>): (r: seq<Item>)
    ensures |r| == |items| + |ds|
    ensures r[..|items|] == items
    ensures forall k | |items| <= k < |r| :: DraftOf(r[k]) == ds[k - |items|] && !r[k].flagged
  {
    var added := Numbered(ds, MaxId(items));
    var r := items + added;
    assert forall k | |items| <= k < |r| :: r[k] == added[k - |items|];
    r
  }

  /** With numeric ids, the k-th new record gets id `max + k + 1`, and the ids stay distinct. */
  lemma BulkEntryIds(items: seq<Item>, ds: seq<Draft>)
    requires |items| > 0 && NumericIds(items)
    ensures MaxId(items).Finite?
    ensures forall k | |items| <= k < |items| + |ds| ::
      ParseInt(BulkEntry(items, ds)[k].id) == Finite(MaxId(items).v + (k - |items|) + 1)
    ensures DistinctIds(items) ==> DistinctIds(BulkEntry(items, ds))
  {
    MaxIdFinite(items);
    var m := MaxId(items).v;
    var r := BulkEntry(items, ds);
    var added := Numbered(ds, MaxId(items));
    assert r == items + added;
    forall k | |items| <= k < |r| ensures ParseInt(r[k].id) == Finite(m + (k - |items|) + 1) {
      assert r[k] == added[k - |items|];
      ParseIntShow(m + (k - |items|) + 1);
    }
    if DistinctIds(items) {
      forall a, b | 0 <= a < b < |r| ensures r[a].id != r[b].id {
        if b < |items| {
          assert r[a] == items[a] && r[b] == items[b];
        } else if a < |items| {
          assert r[a] == items[a];
          assert ParseInt(r[a].id).v <= m;
        } else {
          assert ParseInt(r[a].id) != ParseInt(r[b].id);
        }
      }
    }
  }

  /** Importing a single draft is the same as entering it by hand. */
  lemma BulkEntrySingle(items: seq<Item>, d: Draft)
    ensures BulkEntry(items, [d]) == StockEntry(items, d)
  {
    assert Numbered([d], MaxId(items)) == [WithId(d, NumberText(Plus(MaxId(items), 1)))];
  }

  /** The first record entered into an empty list gets the id "-Infinity", the
      text of the maximum of no ids. */
  lemma FirstEntryId(d: Draft)
    ensures StockEntry([], d)[0].id == "-Infinity"
  {
    assert MaxId([]) == NegInfinity;
  }

  /** Once some id does not start with a number, every entry gets the id "NaN". */
  lemma NonNumericIdPoisons(items: seq<Item>, d: Draft)
    requires exists i | 0 <= i < |items| :: ParseInt(items[i].id) == NaN
    ensures StockEntry(items, d)[|items|].id == "NaN"
  {
    var i :| 0 <= i < |items| && ParseInt(items[i].id) == NaN;
    assert ParsedIds(items)[i] == NaN;
  }

  /** Entering three records into an empty list: the first gets "-Infinity"
      (the maximum of no ids), the next two both get "NaN" (since "-Infinity" does
      not parse), so the list ends with a repeated id. */
  lemma EntryIdsCollide(d: Draft)
    ensures var s3 := StockEntry(StockEntry(StockEntry([], d), d), d);
      && s3[0].id == "-Infinity"
      && s3[1].id == "NaN"
      && s3[2].id == "NaN"
      && !DistinctIds(s3)
  {
    var s1 := StockEntry([], d);
    FirstEntryId(d);
    assert ParseInt("-Infinity") == NaN by {
      assert LeadingDigits("Infinity") == [];
    }
    NonNumericIdPoisons(s1, d);
    var s2 := StockEntry(s1, d);
    assert s2[0] == s1[0];
    NonNumericIdPoisons(s2, d);
    var s3 := StockEntry(s2, d);
    assert s3[..2] == s2;
    assert s3[1].id == s3[2].id;
  }

  /** The largest id that starts with a number, or 0 when there is none. */
  function LargestNumericId(items: seq<Item>): (m: int)
    ensures m >= 0
    ensures forall i | 0 <= i < |items| && ParseInt(items[i].id).Finite? :: ParseInt(items[i].id).v <= m
    ensures m > 0 ==> exists j | 0 <= j < |items| :: ParseInt(items[j].id) == Finite(m)
  {
    if |items| == 0 then 0
    else
      var init := items[..|items| - 1];
      var m := LargestNumericId(init);
      var n := ParseInt(items[|items| - 1].id);
      assert forall i | 0 <= i < |init| :: init[i] == items[i];
      if n.Finite? && n.v > m then n.v else m
  }

  /** An id no record has: one more than the largest numeric id (1 for an empty list). */
  function FreshId(items: seq<Item>): (id: string)
    ensures forall i | 0 <= i < |items| :: items[i].id != id
    ensures ParseInt(id).Finite? && ParseInt(id).v >= 1
  {
    var m := LargestNumericId(items);
    ParseIntShow(m + 1);
    Show(m + 1)
  }

  /** Stock entry with a fresh id whatever ids are present. */
  function StockEntryFresh(items: seq<Item>, d: Draft): (r: seq<Item>)
    ensures |r| == |items| + 1
    ensures r[..|items|] == items
    ensures DraftOf(r[|items|]) == d && !r[|items|].flagged
    ensures forall i | 0 <= i < |items| :: items[i].id != r[|items|].id
    ensures DistinctIds(items) ==> DistinctIds(r)
  {
    var r := items + [WithId(d, FreshId(items))];
    assert forall i | 0 <= i < |items| :: r[i] == items[i];
    r
  }

  /** Where the original numbering works (numeric ids, a non-negative maximum),
      the corrected entry assigns the same id. */
  lemma StockEntryFreshAgrees(items: seq<Item>, d: Draft)
    requires |items| > 0 && NumericIds(items)
    requires MaxId(items).Finite? && MaxId(items).v >= 0
    ensures StockEntryFresh(items, d) == StockEntry(items, d)
  {
    MaxIdFinite(items);
    var i :| 0 <= i < |items| && ParseInt(items[i].id) == MaxId(items);
    assert LargestNumericId(items) >= MaxId(items).v;
    if MaxId(items).v > 0 {
      var j :| 0 <= j < |items| && ParseInt(items[j].id) == Finite(LargestNumericId(items));
    }
    assert LargestNumericId(items) == MaxId(items).v;
  }

  /** Importing into an empty list numbers from -Infinity, and -Infinity plus one
      is still -Infinity: every imported record gets the id "-Infinity". */
  lemma BulkEntryIdsCollide(d1: Draft, d2: Draft)
    ensures var r := BulkEntry([], [d1, d2]);
      && r[0].id == "-Infinity"
      && r[1].id == "-Infinity"
      && !DistinctIds(r)
  {
    assert MaxId([]) == NegInfinity;
  }

  /** Bulk entry numbering from the largest numeric id, whatever ids are present. */
  function BulkEntryFresh(items: seq<Item>, ds: seq<Draft>): (r: seq<Item>)
    ensures |r| == |items| + |ds|
    ensures r[..|items|] == items
    ensures forall k | |items| <= k < |r| :: DraftOf(r[k]) == ds[k - |items|] && !r[k].flagged
  {
    var added := Numbered(ds, Finite(LargestNumericId(items)));
    var r := items + added;
    assert forall k | |items| <= k < |r| :: r[k] == added[k - |items|];
    r
  }

  /** Numbering from a finite base: the j-th draft's id reads back as base + j + 1. */
  lemma NumberedId(ds: seq<Draft>, m: int, j: int)
    requires 0 <= j < |ds|
    ensures ParseInt(Numbered(ds, Finite(m))[j].id) == Finite(m + j + 1)
  {
    assert Numbered(ds, Finite(m))[j].id == Show(m + j + 1);
    ParseIntShow(m + j + 1);
  }

  /** Appending drafts numbered from m: the record at k reads back as m + 1 past
      the old length. */
  lemma AppendedNumber(items: seq<Item>, ds: seq<Draft>, m: int, k: int)
    requires |items| <= k < |items| + |ds|
    ensures ParseInt((items + Numbered(ds, Finite(m)))[k].id) == Finite(m + (k - |items|) + 1)
  {
    NumberedId(ds, m, k - |items|);
  }

  /** The k-th imported record gets id `m + k`, where m is the largest numeric id
      (0 if none). */
  lemma BulkEntryFreshNumber(items: seq<Item>, ds: seq<Draft>, k: int)
    requires |items| <= k < |items| + |ds|
    ensures ParseInt(BulkEntryFresh(items, ds)[k].id) == Finite(LargestNumericId(items) + (k - |items|) + 1)
  {
    AppendedNumber(items, ds, LargestNumericId(items), k);
  }

  /** The imported records are numbered consecutively after the largest numeric id. */
  lemma BulkEntryFreshNumbers(items: seq<Item>, ds: seq<Draft>)
    ensures var r := BulkEntryFresh(items, ds);
      forall k | |items| <= k < |r| ::
        ParseInt(r[k].id) == Finite(LargestNumericId(items) + (k - |items|) + 1)
  {
    forall k | |items| <= k < |items| + |ds|
      ensures ParseInt(BulkEntryFresh(items, ds)[k].id) == Finite(LargestNumericId(items) + (k - |items|) + 1)
    {
      BulkEntryFreshNumber(items, ds, k);
    }
  }

  /** An imported record's id differs from the id of any other record, old or new. */
  lemma BulkEntryFreshIdDiffers(items: seq<Item>, ds: seq<Draft>, k: int, i: int)
    requires |items| <= k < |items| + |ds|
    requires 0 <= i < |items| + |ds| && i != k
    ensures BulkEntryFresh(items, ds)[i].id != BulkEntryFresh(items, ds)[k].id
  {
    var r := BulkEntryFresh(items, ds);
    BulkEntryFreshNumber(items, ds, k);
    if i < |items| {
      assert r[i] == items[i] by {
        assert r[..|items|][i] == r[i];
      }
    } else {
      BulkEntryFreshNumber(items, ds, i);
    }
  }

  /** Every imported record's id differs from every other id, old or new, so
      distinct ids stay distinct. */
  lemma BulkEntryFreshIds(items: seq<Item>, ds: seq<Draft>)
    ensures var r := BulkEntryFresh(items, ds);
      forall k, i | |items| <= k < |r| && 0 <= i < |r| && i != k :: r[i].id != r[k].id
    ensures DistinctIds(items) ==> DistinctIds(BulkEntryFresh(items, ds))
  {
    var r := BulkEntryFresh(items, ds);
    forall k, i | |items| <= k < |r| && 0 <= i < |r| && i != k ensures r[i].id != r[k].id {
      BulkEntryFreshIdDiffers(items, ds, k, i);
    }
    if DistinctIds(items) {
      forall a, b | 0 <= a < b < |r| ensures r[a].id != r[b].id {
        if b < |items| {
          assert r[a] == items[a] && r[b] == items[b] by {
            assert r[..|items|][a] == r[a] && r[..|items|][b] == r[b];
          }
        }
      }
    }
  }

  // ---------------------------------------------------------- move and update

  /** `handleStockMove`: every record with the id gets the new warehouse and rack. */
  function Move(items: seq<Item>, id: string, warehouse: string, rack: string): (r: seq<Item>)
    ensures |r| == |items| && Ids(r) == Ids(items)
    ensures forall i | 0 <= i < |items| ::
      r[i].(warehouse := items[i].warehouse, rack := items[i].rack) == items[i]
    ensures forall i | 0 <= i < |items| && items[i].id == id ::
      r[i].warehouse == warehouse && r[i].rack == rack
    ensures forall i | 0 <= i < |items| && items[i].id != id :: r[i] == items[i]
    ensures id !in Ids(items) ==> r == items
  {
    seq(|items|, i requires 0 <= i < |items| =>
      if items[i].id == id then items[i].(warehouse := warehouse, rack := rack) else items[i])
  }

  /** `handleUpdateItem`: every record with the new record's id is replaced by it. */
  function Update(items: seq<Item>, u: Item): (r: seq<Item>)
    ensures |r| == |items| && Ids(r) == Ids(items)
    ensures forall i | 0 <= i < |items| && items[i].id == u.id :: r[i] == u
    ensures forall i | 0 <= i < |items| && items[i].id != u.id :: r[i] == items[i]
    ensures u.id !in Ids(items) ==> r == items
  {
    seq(|items|, i requires 0 <= i < |items| => if items[i].id == u.id then u else items[i])
  }

  /** Writing back the previous record undoes an update, when ids are distinct. */
  lemma UpdateRestores(items: seq<Item>, u: Item, k: int)
    requires DistinctIds(items) && 0 <= k < |items| && u.id == items[k].id
    ensures Update(Update(items, u), items[k]) == items
  {
    var r := Update(Update(items, u), items[k]);
    forall i | 0 <= i < |items| ensures r[i] == items[i] {
      if i != k {
        assert items[i].id != items[k].id;
      }
    }
  }

  /** A move is an update of the one record with that id. */
  lemma MoveIsUpdate(items: seq<Item>, k: int, warehouse: string, rack: string)
    requires DistinctIds(items) && 0 <= k < |items|
    ensures Move(items, items[k].id, warehouse, rack)
         == Update(items, items[k].(warehouse := warehouse, rack := rack))
  {
    var a := Move(items, items[k].id, warehouse, rack);
    var b := Update(items, items[k].(warehouse := warehouse, rack := rack));
    forall i | 0 <= i < |items| ensures a[i] == b[i] {
      if i != k {
        assert items[i].id != items[k].id;
      }
    }
  }

  // ------------------------------------------------------------------ delete

  function IdIsNot(id: string): Item -> bool
  {
    (x: Item) => x.id != id
  }

  function IdNotIn(ids: seq<string>): Item -> bool
  {
    (x: Item) => x.id !in ids
  }

  /** `handleDeleteItem`: once the user confirms, drops every record with the id. */
  function Delete(items: seq<Item>, id: string, confirmed: bool): (r: seq<Item>)
    ensures !confirmed ==> r == items
    ensures IsSubseq(r, items)
    ensures confirmed ==> forall x | x in r :: x.id != id
    ensures confirmed ==> forall x | x in items ::
      multiset(r)[x] == if x.id == id then 0 else multiset(items)[x]
  {
    if confirmed then
      FilterCount(items, IdIsNot(id));
      FilterSubseq(items, IdIsNot(id));
      Filter(items, IdIsNot(id))
    else
      SubseqRefl(items);
      items
  }

  /** `handleBulkDelete`: keeps exactly the records whose id is not listed. */
  function BulkDelete(items: seq<Item>, ids: seq<string>): (r: seq<Item>)
    ensures IsSubseq(r, items)
    ensures forall x | x in r :: x.id !in ids
    ensures forall x | x in items ::
      multiset(r)[x] == if x.id in ids then 0 else multiset(items)[x]
  {
    FilterCount(items, IdNotIn(ids));
    FilterSubseq(items, IdNotIn(ids));
    Filter(items, IdNotIn(ids))
  }

  lemma BulkDeleteIdempotent(items: seq<Item>, ids: seq<string>)
    ensures BulkDelete(BulkDelete(items, ids), ids) == BulkDelete(items, ids)
  {
    FilterFilter(items, IdNotIn(ids), IdNotIn(ids), IdNotIn(ids));
  }

  /** Deleting the ids one at a time, each confirmed. */
  function DeleteEach(items: seq<Item>, ids: seq<string>): seq<Item>
    decreases |ids|
  {
    if |ids| == 0 then items else DeleteEach(Delete(items, ids[0], true), ids[1..])
  }

  lemma {:induction false} BulkDeleteIsDeleteEach(items: seq<Item>, ids: seq<string>)
    ensures DeleteEach(items, ids) == BulkDelete(items, ids)
    decreases |ids|
  {
    if |ids| == 0 {
      FilterKeepsAll(items, IdNotIn(ids));
    } else {
      var once := Delete(items, ids[0], true);
      BulkDeleteIsDeleteEach(once, ids[1..]);
      assert forall x: Item :: x.id in ids <==> x.id == ids[0] || x.id in ids[1..];
      FilterFilter(items, IdIsNot(ids[0]), IdNotIn(ids[1..]), IdNotIn(ids));
    }
  }
}
