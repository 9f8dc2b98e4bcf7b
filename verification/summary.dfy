/** The per-warehouse cards of the home screen (src/components/WarehouseSummary.tsx):
    the records grouped by warehouse, with a record count and a pallet total for
    each, ordered by warehouse name. */
module Summary {
  import opened Seqs
  import opened Sorting
  import opened Inventory

  /** Totals for one warehouse. */
  datatype Stat = Stat(palletCount: int, itemCount: int)

  /** One card: a warehouse and its totals. */
  datatype Entry = Entry(warehouse: string, stat: Stat)

  function WarehouseIs(w: string): Item -> bool
  {
    (x: Item) => x.warehouse == w
  }

  /** The records stored in warehouse `w`, in list order. */
  function InWarehouse(items: seq<Item>, w: string): seq<Item>
  {
    Filter(items, WarehouseIs(w))
  }

  /** Sum of the pallet counts. */
  function PalletTotal(items: seq<Item>): int
  {
    if |items| == 0 then 0 else items[0].palletCount + PalletTotal(items[1..])
  }

  lemma {:induction false} PalletTotalAppend(a: seq<Item>, b: seq<Item>)
    ensures PalletTotal(a + b) == PalletTotal(a) + PalletTotal(b)
    decreases |a|
  {
    if |a| > 0 {
      assert (a + b)[1..] == a[1..] + b;
      PalletTotalAppend(a[1..], b);
    } else {
      assert a + b == b;
    }
  }

  /** The totals warehouse `w` should show: its pallets summed, its records counted. */
  function Expected(items: seq<Item>, w: string): Stat
  {
    Stat(PalletTotal(InWarehouse(items, w)), |InWarehouse(items, w)|)
  }

  /** The body of the `forEach`: start the warehouse at zero if it has no totals
      yet, then add the record's pallets and count it. */
  function AddItem(stats: map<string, Stat>, x: Item): (r: map<string, Stat>)
    ensures r.Keys == stats.Keys + {x.warehouse}
    ensures forall w | w in stats && w != x.warehouse :: r[w] == stats[w]
  {
    var cur := if x.warehouse in stats then stats[x.warehouse] else Stat(0, 0);
    stats[x.warehouse := Stat(cur.palletCount + x.palletCount, cur.itemCount + 1)]
  }

  lemma NotStoredEmpty(items: seq<Item>, w: string)
    ensures w !in WarehouseSet(items) ==> Expected(items, w) == Stat(0, 0)
  {
    var ws := InWarehouse(items, w);
    if |ws| > 0 {
      assert ws[0] in items;
    }
  }

  /** Adding one record to the list changes only its warehouse's expected totals,
      by exactly what `AddItem` adds. */
  lemma ExpectedSnoc(s: seq<Item>, x: Item, w: string)
    ensures Expected(s + [x], w) ==
      if w == x.warehouse
      then Stat(Expected(s, w).palletCount + x.palletCount, Expected(s, w).itemCount + 1)
      else Expected(s, w)
  {
    FilterAppend(s, [x], WarehouseIs(w));
    var tail := Filter([x], WarehouseIs(w));
    assert tail == if x.warehouse == w then [x] else [];
    PalletTotalAppend(InWarehouse(s, w), tail);
  }

  /** The totals are right for `s` */
  ghost predicate TalliedFor(stats: map<string, Stat>, s: seq<Item>)
  {
    && stats.Keys == WarehouseSet(s)
    && forall w | w in stats :: stats[w] == Expected(s, w)
  }

  lemma WarehouseSetSnoc(s: seq<Item>, x: Item)
    ensures WarehouseSet(s + [x]) == WarehouseSet(s) + {x.warehouse}
  {
    forall w | w in WarehouseSet(s + [x]) ensures w in WarehouseSet(s) + {x.warehouse} {
      var y :| y in s + [x] && y.warehouse == w;
      assert y in s || y == x;
    }
    forall w | w in WarehouseSet(s) ensures w in WarehouseSet(s + [x]) {
      var y :| y in s && y.warehouse == w;
      assert y in s + [x];
    }
    assert x in s + [x];
  }

  /** One step of the loop keeps the totals right for the records seen so far. */
  lemma TallyStep(stats: map<string, Stat>, s: seq<Item>, x: Item)
    requires TalliedFor(stats, s)
    ensures TalliedFor(AddItem(stats, x), s + [x])
  {
    var r := AddItem(stats, x);
    assert r.Keys == WarehouseSet(s + [x]) by {
      WarehouseSetSnoc(s, x);
    }
    assert r[x.warehouse] == Expected(s + [x], x.warehouse) by {
      NotStoredEmpty(s, x.warehouse);
      ExpectedSnoc(s, x, x.warehouse);
    }
    assert forall w | w in r && w != x.warehouse :: r[w] == Expected(s + [x], w) by {
      forall w | w in r && w != x.warehouse ensures r[w] == Expected(s + [x], w) {
        ExpectedSnoc(s, x, w);
      }
    }
  }

  /** `stats`: the totals accumulated record by record, as the source's loop does. */
  method Tally(items: seq<Item>) returns (stats: map<string, Stat>)
    ensures stats.Keys == WarehouseSet(items)
    ensures forall w | w in stats :: stats[w] == Expected(items, w)
  {
    stats := map[];
    var i := 0;
    while i < |items|
      invariant 0 <= i <= |items|
      invariant TalliedFor(stats, items[..i])
    {
      assert items[..i + 1] == items[..i] + [items[i]];
      TallyStep(stats, items[..i], items[i]);
      stats := AddItem(stats, items[i]);
      i := i + 1;
    }
    assert items[..i] == items;
  }

  /** `Object.entries(stats)` keys, in whatever order the object yields them. */
  method KeysOf(stats: map<string, Stat>) returns (ks: seq<string>)
    ensures ToSet(ks) == stats.Keys
    ensures NoDup(ks)
  {
    ks := [];
    var rest := stats.Keys;
    while rest != {}
      invariant rest !! ToSet(ks)
      invariant rest + ToSet(ks) == stats.Keys
      invariant NoDup(ks)
      decreases |rest|
    {
      var k :| k in rest;
      assert ToSet(ks + [k]) == ToSet(ks) + {k};
      ks := ks + [k];
      rest := rest - {k};
    }
  }

  function Keys(entries: seq<Entry>): (r: seq<string>)
    ensures |r| == |entries|
    ensures forall i | 0 <= i < |entries| :: r[i] == entries[i].warehouse
  {
    seq(|entries|, i requires 0 <= i < |entries| => entries[i].warehouse)
  }

  function TotalItems(entries: seq<Entry>): int
  {
    if |entries| == 0 then 0 else entries[0].stat.itemCount + TotalItems(entries[1..])
  }

  function TotalPallets(entries: seq<Entry>): int
  {
    if |entries| == 0 then 0 else entries[0].stat.palletCount + TotalPallets(entries[1..])
  }

  /** One card per key, in key order. */
  function Cards(stats: map<string, Stat>, keys: seq<string>): (r: seq<Entry>)
    requires forall i | 0 <= i < |keys| :: keys[i] in stats
    ensures Keys(r) == keys
    ensures forall i | 0 <= i < |keys| :: r[i].stat == stats[keys[i]]
  {
    seq(|keys|, i requires 0 <= i < |keys| => Entry(keys[i], stats[keys[i]]))
  }

  /** Sorting a duplicate-free list of keys orders them strictly. */
  lemma SortKeys(ks: seq<string>)
    requires NoDup(ks)
    ensures StrictlySorted(Sort(ks))
    ensures ToSet(Sort(ks)) == ToSet(ks)
    ensures NoDup(Sort(ks))
  {
    var sorted := Sort(ks);
    forall k ensures k in sorted <==> k in ks {
      assert k in sorted <==> k in multiset(sorted);
    }
    forall i, j | 0 <= i < j < |sorted| ensures Lt(sorted[i], sorted[j]) {
      LtTrichotomy(sorted[i], sorted[j]);
    }
  }

  lemma KeysInStats(stats: map<string, Stat>, keys: seq<string>)
    requires ToSet(keys) == stats.Keys
    ensures forall i | 0 <= i < |keys| :: keys[i] in stats
  {
    forall i | 0 <= i < |keys| ensures keys[i] in stats {
      assert keys[i] in ToSet(keys);
    }
  }

  /** Each card made from correct totals shows its warehouse's expected totals. */
  lemma CardsExpected(items: seq<Item>, stats: map<string, Stat>, keys: seq<string>)
    requires TalliedFor(stats, items)
    requires forall i | 0 <= i < |keys| :: keys[i] in stats
    ensures forall e | e in Cards(stats, keys) :: e.stat == Expected(items, e.warehouse)
  {
    var entries := Cards(stats, keys);
    forall e | e in entries ensures e.stat == Expected(items, e.warehouse) {
      var i :| 0 <= i < |entries| && entries[i] == e;
      assert Keys(entries)[i] == e.warehouse;
    }
  }

  /** Cards made from correct totals, one per warehouse in use, add up to the
      number of records and to the overall pallet total. */
  lemma CardsTotals(items: seq<Item>, stats: map<string, Stat>, keys: seq<string>)
    requires TalliedFor(stats, items)
    requires NoDup(keys) && ToSet(keys) == stats.Keys
    ensures forall i | 0 <= i < |keys| :: keys[i] in stats
    ensures TotalItems(Cards(stats, keys)) == |items|
    ensures TotalPallets(Cards(stats, keys)) == PalletTotal(items)
  {
    KeysInStats(stats, keys);
    var entries := Cards(stats, keys);
    EntrySums(items, keys, entries);
    CountConservation(items, keys);
  }

  /** The summary: one card per warehouse, sorted by warehouse name. The counts add
      up to the number of records and the pallet totals to the overall pallet total. */
  method Summarize(items: seq<Item>) returns (entries: seq<Entry>)
    ensures StrictlySorted(Keys(entries))
    ensures ToSet(Keys(entries)) == WarehouseSet(items)
    ensures forall e | e in entries :: e.stat == Expected(items, e.warehouse)
    ensures TotalItems(entries) == |items|
    ensures TotalPallets(entries) == PalletTotal(items)
  {
    var stats := Tally(items);
    var ks := KeysOf(stats);
    SortKeys(ks);
    var sorted := Sort(ks);
    CardsTotals(items, stats, sorted);
    CardsExpected(items, stats, sorted);
    entries := Cards(stats, sorted);
  }

  // ------------------------------------------------------------ conservation

  /** Record counts of the warehouses in `keys`, summed. */
  function KeyCountSum(items: seq<Item>, keys: seq<string>): int
  {
    if |keys| == 0 then 0 else |InWarehouse(items, keys[0])| + KeyCountSum(items, keys[1..])
  }

  /** Pallet totals of the warehouses in `keys`, summed. */
  function KeyPalletSum(items: seq<Item>, keys: seq<string>): int
  {
    if |keys| == 0 then 0 else PalletTotal(InWarehouse(items, keys[0])) + KeyPalletSum(items, keys[1..])
  }

  lemma {:induction false} EntrySums(items: seq<Item>, keys: seq<string>, entries: seq<Entry>)
    requires |entries| == |keys|
    requires forall i | 0 <= i < |keys| :: entries[i].stat == Expected(items, keys[i])
    ensures TotalItems(entries) == KeyCountSum(items, keys)
    ensures TotalPallets(entries) == KeyPalletSum(items, keys)
    decreases |keys|
  {
    if |keys| > 0 {
      EntrySums(items, keys[1..], entries[1..]);
    }
  }

  /** The first record contributes once, to its own warehouse, if that is listed. */
  lemma {:induction false} SplitHead(x: Item, rest: seq<Item>, keys: seq<string>)
    requires NoDup(keys)
    ensures KeyCountSum([x] + rest, keys) ==
      (if x.warehouse in keys then 1 else 0) + KeyCountSum(rest, keys)
    ensures KeyPalletSum([x] + rest, keys) ==
      (if x.warehouse in keys then x.palletCount else 0) + KeyPalletSum(rest, keys)
    decreases |keys|
  {
    if |keys| > 0 {
      var k := keys[0];
      assert NoDup(keys[1..]);
      SplitHead(x, rest, keys[1..]);
      assert ([x] + rest)[1..] == rest;
      assert x.warehouse in keys <==> x.warehouse == k || x.warehouse in keys[1..] by {
        assert keys == [k] + keys[1..];
      }
      assert k !in keys[1..] by {
        forall j | 0 <= j < |keys| - 1 ensures keys[1..][j] != k {
          assert keys[1..][j] == keys[j + 1];
        }
      }
    }
  }

  /** Summed over a duplicate-free list naming every warehouse in use, the counts
      give the number of records and the pallet totals the overall pallet total. */
  lemma {:induction false} CountConservation(items: seq<Item>, keys: seq<string>)
    requires NoDup(keys)
    requires WarehouseSet(items) <= ToSet(keys)
    ensures KeyCountSum(items, keys) == |items|
    ensures KeyPalletSum(items, keys) == PalletTotal(items)
    decreases |items|
  {
    if |items| == 0 {
      EmptyKeySums(keys);
    } else {
      var x := items[0];
      var rest := items[1..];
      assert items == [x] + rest;
      assert x.warehouse in WarehouseSet(items);
      assert WarehouseSet(rest) <= WarehouseSet(items);
      SplitHead(x, rest, keys);
      CountConservation(rest, keys);
    }
  }

  lemma {:induction false} EmptyKeySums(keys: seq<string>)
    ensures KeyCountSum([], keys) == 0 && KeyPalletSum([], keys) == 0
    decreases |keys|
  {
    if |keys| > 0 {
      EmptyKeySums(keys[1..]);
    }
  }
}
