/** The inventory-status screen (src/components/InventoryStatus.tsx): the
    warehouse and line pick-lists, the four-way filter, and the checkbox
    selection with its delete action. */
module Status {
  import opened Seqs
  import opened Text
  import opened Sorting
  import opened Inventory
  import App

  /** The pick-list value that switches a filter off. */
  const All := "all"

  /** The line shown for a rack with nothing before its first dash. */
  const UnknownLine := "Unknown"

  /** `rack.split('-')[0] || 'Unknown'`: the rack's line. */
  function Line(rack: string): (r: string)
    ensures r != ""
    ensures (|rack| == 0 || rack[0] == '-') ==> r == UnknownLine
    ensures !(|rack| == 0 || rack[0] == '-') ==>
      IsPrefix(r, rack) && '-' !in r && (|r| == |rack| || rack[|r|] == '-')
  {
    var head := Before(rack, '-');
    if head == "" then UnknownLine else head
  }

  // ------------------------------------------------------------ pick-lists

  function LineSet(items: seq<Item>): set<string>
  {
    set x | x in items :: Line(x.rack)
  }

  /** `Array.from(new Set(items.map(item => item.warehouse))).sort()`. */
  function Warehouses(items: seq<Item>): (r: seq<string>)
    ensures StrictlySorted(r)
    ensures ToSet(r) == WarehouseSet(items)
  {
    var ws := seq(|items|, i requires 0 <= i < |items| => items[i].warehouse);
    assert ToSet(ws) == WarehouseSet(items) by {
      forall w ensures w in ws <==> w in WarehouseSet(items) {
        if w in WarehouseSet(items) {
          var x :| x in items && x.warehouse == w;
          var i :| 0 <= i < |items| && items[i] == x;
          assert ws[i] == w;
        }
      }
    }
    SortedDistinct(ws)
  }

  /** The distinct lines of the racks, sorted. */
  function Lines(items: seq<Item>): (r: seq<string>)
    ensures StrictlySorted(r)
    ensures ToSet(r) == LineSet(items)
  {
    var ls := seq(|items|, i requires 0 <= i < |items| => Line(items[i].rack));
    assert ToSet(ls) == LineSet(items) by {
      forall l ensures l in ls <==> l in LineSet(items) {
        if l in LineSet(items) {
          var x :| x in items && Line(x.rack) == l;
          var i :| 0 <= i < |items| && items[i] == x;
          assert ls[i] == l;
        }
      }
    }
    SortedDistinct(ls)
  }

  // ---------------------------------------------------------------- filter

  /** The four filter controls of the screen. */
  datatype Criteria = Criteria(warehouse: string, line: string, flaggedOnly: bool, search: string)

  predicate MatchWarehouse(c: Criteria, x: Item)
  {
    c.warehouse == All || x.warehouse == c.warehouse
  }

  predicate MatchLine(c: Criteria, x: Item)
  {
    c.line == All || Line(x.rack) == c.line
  }

  predicate MatchFlag(c: Criteria, x: Item)
  {
    !c.flaggedOnly || x.flagged
  }

  /** An empty search matches; otherwise name, rack or category (not warehouse)
      must contain the lower-cased term. */
  predicate MatchSearch(c: Criteria, x: Item)
  {
    || c.search == ""
    || Contains(Lower(x.name), Lower(c.search))
    || Contains(Lower(x.rack), Lower(c.search))
    || Contains(Lower(x.category), Lower(c.search))
  }

  function Passes(c: Criteria): Item -> bool
  {
    (x: Item) => MatchWarehouse(c, x) && MatchLine(c, x) && MatchSearch(c, x) && MatchFlag(c, x)
  }

  /** The `filteredItems` memo: the records passing all four checks, in list order. */
  function FilterItems(items: seq<Item>, c: Criteria): (r: seq<Item>)
    ensures IsSubseq(r, items)
    ensures forall x | x in r ::
      MatchWarehouse(c, x) && MatchLine(c, x) && MatchFlag(c, x) && MatchSearch(c, x)
    ensures forall x | x in items ::
      multiset(r)[x] ==
        if MatchWarehouse(c, x) && MatchLine(c, x) && MatchFlag(c, x) && MatchSearch(c, x)
        then multiset(items)[x] else 0
  {
    FilterCount(items, Passes(c));
    FilterSubseq(items, Passes(c));
    Filter(items, Passes(c))
  }

  /** With every control off, the whole list is shown. */
  lemma FilterOff(items: seq<Item>)
    ensures FilterItems(items, Criteria(All, All, false, "")) == items
  {
    FilterKeepsAll(items, Passes(Criteria(All, All, false, "")));
  }

  /** Every warehouse offered in the pick-list selects at least one record (the
      pick-list holds exactly the warehouses of `WarehouseSet`). */
  lemma WarehouseChoiceShowsSomething(items: seq<Item>, w: string)
    requires w in WarehouseSet(items)
    ensures FilterItems(items, Criteria(w, All, false, "")) != []
  {
    var x :| x in items && x.warehouse == w;
    assert x in FilterItems(items, Criteria(w, All, false, ""));
  }

  /** Every line offered in the pick-list selects at least one record: the list
      (exactly the lines of `LineSet`) and the filter derive lines by the same rule. */
  lemma LineChoiceShowsSomething(items: seq<Item>, l: string)
    requires l in LineSet(items)
    ensures FilterItems(items, Criteria(All, l, false, "")) != []
  {
    var x :| x in items && Line(x.rack) == l;
    assert x in FilterItems(items, Criteria(All, l, false, ""));
  }

  // ------------------------------------------------------------- selection

  /** The checked ids, in the order they were checked (a JavaScript `Set`). */
  type Selection = seq<string>

  function Other(id: string): string -> bool
  {
    (x: string) => x != id
  }

  /** `toggleSelect`: unchecks a checked id, or checks an unchecked one. */
  function ToggleSelect(sel: Selection, id: string): (r: Selection)
    ensures id in r <==> id !in sel
    ensures forall x | x in sel && x != id :: x in r
    ensures forall x | x in r && x != id :: x in sel
    ensures NoDup(sel) ==> NoDup(r)
  {
    if id in sel then
      if NoDup(sel) then FilterNoDup(sel, Other(id)); Filter(sel, Other(id))
      else Filter(sel, Other(id))
    else
      assert NoDup(sel) ==> NoDup(sel + [id]);
      sel + [id]
  }

  /** Toggling the same id twice leaves the same ids checked; when the id was
      unchecked, even the order is restored. */
  lemma ToggleSelectTwice(sel: Selection, id: string)
    ensures ToSet(ToggleSelect(ToggleSelect(sel, id), id)) == ToSet(sel)
    ensures id !in sel ==> ToggleSelect(ToggleSelect(sel, id), id) == sel
  {
    if id !in sel {
      FilterAppend(sel, [id], Other(id));
      FilterKeepsAll(sel, Other(id));
    }
  }

  /** `toggleSelectAll`: clears the selection when its size (the number of distinct
      checked ids) equals the number of visible records, and there are some;
      otherwise checks exactly the visible ids. */
  function ToggleSelectAll(sel: Selection, visible: seq<Item>): (r: Selection)
    ensures |ToSet(sel)| == |visible| && |visible| > 0 ==> r == []
    ensures !(|ToSet(sel)| == |visible| && |visible| > 0) ==>
      ToSet(r) == ToSet(Ids(visible)) && NoDup(r)
  {
    if |ToSet(sel)| == |visible| && |visible| > 0 then [] else Dedup(Ids(visible))
  }

  /** An id listed twice is selected once. */
  lemma DedupTwice(x: string)
    ensures Dedup([x, x]) == [x]
  {
    assert [x, x][..1] == [x];
    assert Dedup([x]) == [x];
  }

  /** Two visible records sharing an id: select-all checks that id once, and since
      one checked id is not two visible records, pressing again re-selects instead
      of clearing. */
  lemma SharedIdReselects(a: Item, b: Item)
    requires a.id == b.id
    ensures ToggleSelectAll([], [a, b]) == [a.id]
    ensures ToggleSelectAll([a.id], [a, b]) == [a.id]
  {
    assert Ids([a, b]) == [a.id, a.id];
    DedupTwice(a.id);
    assert ToSet([a.id]) == {a.id};
  }

  /** Two checked ids left over from another filter, with two records visible:
      pressing select-all clears instead of selecting the visible ids. */
  lemma LeftoverSelectionCleared(x: string, y: string, a: Item, b: Item)
    requires x != y
    ensures ToggleSelectAll([x, y], [a, b]) == []
  {
    assert ToSet([x, y]) == {x, y};
  }

  /** Two ways the size test misfires: it re-selects where it should clear, and
      clears where it should select. */
  lemma ToggleSelectAllMisfires()
    ensures var twins := [Item("7", "a", "c", "w", "A-1", 1, 1, false), Item("7", "b", "c", "w", "A-2", 1, 1, false)];
      && ToggleSelectAll([], twins) == ["7"]
      && ToggleSelectAll(ToggleSelectAll([], twins), twins) == ["7"]
    ensures var shown := [Item("1", "a", "c", "w", "A-1", 1, 1, false), Item("2", "b", "c", "w", "A-2", 1, 1, false)];
      ToggleSelectAll(["3", "4"], shown) == []
  {
    var twins := [Item("7", "a", "c", "w", "A-1", 1, 1, false), Item("7", "b", "c", "w", "A-2", 1, 1, false)];
    SharedIdReselects(twins[0], twins[1]);
    var shown := [Item("1", "a", "c", "w", "A-1", 1, 1, false), Item("2", "b", "c", "w", "A-2", 1, 1, false)];
    LeftoverSelectionCleared("3", "4", shown[0], shown[1]);
  }

  /** Select-all judged by the ids themselves: clear only when exactly the visible
      ids are checked. */
  function ToggleSelectAllBySet(sel: Selection, visible: seq<Item>): (r: Selection)
    ensures |visible| > 0 && ToSet(sel) == ToSet(Ids(visible)) ==> r == []
    ensures !(|visible| > 0 && ToSet(sel) == ToSet(Ids(visible))) ==>
      ToSet(r) == ToSet(Ids(visible)) && NoDup(r)
  {
    if |visible| > 0 && ToSet(sel) == ToSet(Ids(visible)) then [] else Dedup(Ids(visible))
  }

  /** From any selection that is not exactly the visible ids, select-all checks
      them, and pressing it again clears. */
  lemma ToggleSelectAllBySetAlternates(sel: Selection, visible: seq<Item>)
    requires |visible| > 0 && ToSet(sel) != ToSet(Ids(visible))
    ensures ToSet(ToggleSelectAllBySet(sel, visible)) == ToSet(Ids(visible))
    ensures ToggleSelectAllBySet(ToggleSelectAllBySet(sel, visible), visible) == []
  {
  }

  lemma {:induction false} NoDupCard(s: seq<string>)
    requires NoDup(s)
    ensures |ToSet(s)| == |s|
    decreases |s|
  {
    if |s| > 0 {
      var init := s[..|s| - 1];
      assert s == init + [s[|s| - 1]];
      assert NoDup(init);
      NoDupCard(init);
      assert ToSet(s) == ToSet(init) + {s[|s| - 1]};
      assert s[|s| - 1] !in ToSet(init);
    }
  }

  /** When the visible ids are distinct and nothing outside them is checked, the
      size test and the set test agree. */
  lemma ToggleSelectAllAgrees(sel: Selection, visible: seq<Item>)
    requires DistinctIds(visible)
    requires ToSet(sel) <= ToSet(Ids(visible))
    ensures ToggleSelectAllBySet(sel, visible) == ToggleSelectAll(sel, visible)
  {
    var ids := Ids(visible);
    assert NoDup(ids);
    NoDupCard(ids);
    if |ToSet(sel)| == |visible| {
      var extra := ToSet(ids) - ToSet(sel);
      assert ToSet(ids) == ToSet(sel) + extra;
      assert |extra| == 0;
      assert ToSet(sel) == ToSet(ids);
    }
  }

  // ----------------------------------------------------------- delete selected

  /** What the screen asks the application to do. */
  datatype Request = NoRequest | DeleteRequest(ids: seq<string>)

  /** `handleDeleteSelected`: with a non-empty selection and the user's
      confirmation, requests deletion of every checked id and clears the checks. */
  function DeleteSelected(sel: Selection, confirmed: bool): (r: (Request, Selection))
    ensures r.0.DeleteRequest? <==> |sel| > 0 && confirmed
    ensures r.0.DeleteRequest? ==> r.0.ids == sel && r.1 == []
    ensures r.0.NoRequest? ==> r.1 == sel
  {
    if |sel| == 0 then (NoRequest, sel)
    else if confirmed then (DeleteRequest(sel), [])
    else (NoRequest, sel)
  }

  /** Carried out by the application, a confirmed delete removes exactly the
      checked records from the list. */
  lemma DeleteSelectedRemovesChecked(items: seq<Item>, sel: Selection)
    requires |sel| > 0
    ensures var (req, next) := DeleteSelected(sel, true);
      && next == []
      && req.DeleteRequest?
      && (forall x | x in App.BulkDelete(items, req.ids) :: x.id !in ToSet(sel))
      && (forall x | x in items && x.id !in ToSet(sel) :: x in App.BulkDelete(items, req.ids))
  {
    var rest := App.BulkDelete(items, sel);
    forall x | x in items && x.id !in ToSet(sel) ensures x in rest {
      assert multiset(rest)[x] == multiset(items)[x];
    }
  }
}
