/** The spreadsheet import of the bulk-entry dialog
    (src/components/modals/BulkEntryModal.tsx), taken over rows already decoded
    from the workbook: the first row is the header, every later row with a name
    becomes a draft record, and an import that yields nothing is refused. */
module BulkImport {
  import opened Seqs
  import opened Text
  import opened Js
  import opened Inventory

  /** One decoded sheet row: cells in column order. */
  type Row = seq<Value>

  /** Why an import was refused. */
  datatype ImportError =
    | NoData       // fewer than two rows: at most a header (thrown, shown as the generic read error)
    | NoValidRows  // rows, but none with a name

  datatype Outcome = Saved(drafts: seq<Draft>) | Refused(error: ImportError)

  /** `row[k]`: the cell, or `undefined` past the end of the row. */
  function CellAt(row: Row, k: nat): Value
  {
    if k < |row| then row[k] else Undefined
  }

  /** The record a row describes: columns 0-3 are name, category, warehouse and
      rack (an empty cell reads as the empty string), column 4 the quantity
      (default 0) and column 5 the pallet count (default 1). */
  function RowToDraft(row: Row): (d: Draft)
    ensures Truthy(CellAt(row, 0)) <==> d.name != ""
    ensures Truthy(CellAt(row, 0)) ==> d.name == ToText(CellAt(row, 0))
    ensures Truthy(CellAt(row, 1)) ==> d.category == ToText(CellAt(row, 1))
    ensures !Truthy(CellAt(row, 1)) ==> d.category == ""
    ensures Truthy(CellAt(row, 2)) ==> d.warehouse == ToText(CellAt(row, 2))
    ensures !Truthy(CellAt(row, 2)) ==> d.warehouse == ""
    ensures Truthy(CellAt(row, 3)) ==> d.rack == ToText(CellAt(row, 3))
    ensures !Truthy(CellAt(row, 3)) ==> d.rack == ""
    ensures ToNumber(CellAt(row, 4)).Finite? ==> d.quantity == ToNumber(CellAt(row, 4)).v
    ensures !ToNumber(CellAt(row, 4)).Finite? ==> d.quantity == 0
    ensures ToNumber(CellAt(row, 5)).Finite? && ToNumber(CellAt(row, 5)).v != 0 ==>
      d.palletCount == ToNumber(CellAt(row, 5)).v
    ensures !(ToNumber(CellAt(row, 5)).Finite? && ToNumber(CellAt(row, 5)).v != 0) ==>
      d.palletCount == 1
    ensures d.palletCount != 0
  {
    Draft(
      TextOr(CellAt(row, 0), ""),
      TextOr(CellAt(row, 1), ""),
      TextOr(CellAt(row, 2), ""),
      TextOr(CellAt(row, 3), ""),
      NumberOr(CellAt(row, 4), 0),
      NumberOr(CellAt(row, 5), 1))
  }

  /** A row is imported when it is not empty and its name cell is truthy. */
  predicate IsCandidate(row: Row)
  {
    |row| > 0 && Truthy(row[0])
  }

  function Drafts(rows: seq<Row>): (r: seq<Draft>)
    ensures |r| == |rows|
    ensures forall i | 0 <= i < |rows| :: r[i] == RowToDraft(rows[i])
  {
    seq(|rows|, i requires 0 <= i < |rows| => RowToDraft(rows[i]))
  }

  /** The drafts the import collects from `rows`, row by row: each candidate row
      contributes its draft at the end, every other row nothing. */
  function Candidates(rows: seq<Row>): (r: seq<Draft>)
    ensures |r| <= |rows|
    ensures forall k | 0 <= k < |r| :: r[k].name != ""
    decreases |rows|
  {
    if |rows| == 0 then []
    else
      var last := rows[|rows| - 1];
      Candidates(rows[..|rows| - 1]) + (if IsCandidate(last) then [RowToDraft(last)] else [])
  }

  lemma DraftsAppend(a: seq<Row>, b: seq<Row>)
    ensures Drafts(a + b) == Drafts(a) + Drafts(b)
  {
  }

  /** The import of two blocks of rows is the import of each, in order. */
  lemma {:induction false} CandidatesAppend(a: seq<Row>, b: seq<Row>)
    ensures Candidates(a + b) == Candidates(a) + Candidates(b)
    decreases |b|
  {
    if |b| == 0 {
      assert a + b == a;
    } else {
      var init := b[..|b| - 1];
      assert (a + b)[..|a + b| - 1] == a + init;
      CandidatesAppend(a, init);
    }
  }

  /** The collected drafts are exactly the drafts of the candidate rows, kept in
      row order. */
  lemma {:induction false} CandidatesAreFiltered(rows: seq<Row>)
    ensures Candidates(rows) == Drafts(Filter(rows, IsCandidate))
    decreases |rows|
  {
    if |rows| > 0 {
      var init := rows[..|rows| - 1];
      var last := rows[|rows| - 1];
      assert rows == init + [last];
      CandidatesAreFiltered(init);
      FilterAppend(init, [last], IsCandidate);
      assert Filter([last], IsCandidate) == if IsCandidate(last) then [last] else [];
      DraftsAppend(Filter(init, IsCandidate), Filter([last], IsCandidate));
    }
  }

  /** The `forEach` with its early return and `push`, as a loop. Every draft comes
      from a named row, so every draft has a name, and there are no more drafts
      than rows. */
  method CollectCandidates(rows: seq<Row>) returns (drafts: seq<Draft>)
    ensures drafts == Candidates(rows)
    ensures |drafts| <= |rows|
    ensures forall k | 0 <= k < |drafts| :: drafts[k].name != ""
  {
    drafts := [];
    var i := 0;
    while i < |rows|
      invariant 0 <= i <= |rows|
      invariant drafts == Candidates(rows[..i])
    {
      var row := rows[i];
      assert rows[..i + 1][..i] == rows[..i];
      if |row| > 0 {
        var d := RowToDraft(row);
        if d.name != "" {
          drafts := drafts + [d];
        }
      }
      i := i + 1;
    }
    assert rows[..i] == rows;
  }

  /** The upload handler after decoding: refuse a sheet with no data row, drop the
      header, collect the drafts, and refuse an import that found none. */
  method ReadSheet(data: seq<Row>) returns (r: Outcome)
    ensures |data| < 2 <==> r == Refused(NoData)
    ensures r.Saved? ==> r.drafts == Candidates(data[1..])
    ensures r.Saved? ==> 1 <= |r.drafts| <= |data| - 1
    ensures r.Saved? ==> forall k | 0 <= k < |r.drafts| :: r.drafts[k].name != ""
    ensures r == Refused(NoValidRows) <==> |data| >= 2 && Candidates(data[1..]) == []
  {
    if |data| < 2 {
      return Refused(NoData);
    }
    var drafts := CollectCandidates(data[1..]);
    if |drafts| > 0 {
      r := Saved(drafts);
    } else {
      r := Refused(NoValidRows);
    }
  }

  // ------------------------------------------------------------ properties

  /** An empty row, or one whose name cell is falsy, contributes nothing. */
  lemma {:induction false} NamelessSkipped(before: seq<Row>, row: Row, after: seq<Row>)
    requires !Truthy(CellAt(row, 0))
    ensures Candidates(before + [row] + after) == Candidates(before + after)
  {
    CandidatesAppend(before + [row], after);
    CandidatesAppend(before, [row]);
    CandidatesAppend(before, after);
    assert Candidates([row]) == [] by {
      assert [row][..0] == [];
    }
  }

  /** A named row is imported in place. */
  lemma {:induction false} NamedKept(before: seq<Row>, row: Row, after: seq<Row>)
    requires Truthy(CellAt(row, 0))
    ensures Candidates(before + [row] + after) ==
      Candidates(before) + [RowToDraft(row)] + Candidates(after)
  {
    CandidatesAppend(before + [row], after);
    CandidatesAppend(before, [row]);
    assert Candidates([row]) == [RowToDraft(row)] by {
      assert [row][..0] == [];
    }
  }

  /** The row the template's columns describe for a record: name, category,
      warehouse, rack as text, quantity and pallet count as numbers. */
  function TemplateRow(d: Draft): (row: Row)
    ensures |row| == 6
  {
    [Str(d.name), Str(d.category), Str(d.warehouse), Str(d.rack), Int(d.quantity), Int(d.palletCount)]
  }

  /** Reading back a template row gives the record, unless its pallet count is 0,
      which the import replaces by 1. */
  lemma TemplateRowRoundTrip(d: Draft)
    ensures RowToDraft(TemplateRow(d)) ==
      if d.palletCount == 0 then d.(palletCount := 1) else d
  {
  }

  function TemplateRows(ds: seq<Draft>): (rows: seq<Row>)
    ensures |rows| == |ds|
    ensures forall i | 0 <= i < |ds| :: rows[i] == TemplateRow(ds[i])
  {
    seq(|ds|, i requires 0 <= i < |ds| => TemplateRow(ds[i]))
  }

  /** A sheet filled in from the template, with every record named and no zero
      pallet count, imports to exactly those records, in order, whatever the header. */
  lemma {:induction false} TemplateImport(ds: seq<Draft>)
    requires forall i | 0 <= i < |ds| :: ds[i].name != "" && ds[i].palletCount != 0
    ensures Candidates(TemplateRows(ds)) == ds
    decreases |ds|
  {
    if |ds| > 0 {
      var last := ds[|ds| - 1];
      var init := ds[..|ds| - 1];
      assert TemplateRows(ds) == TemplateRows(init) + [TemplateRow(last)];
      TemplateImport(init);
      NamedKept(TemplateRows(init), TemplateRow(last), []);
      assert TemplateRows(init) + [TemplateRow(last)] + [] == TemplateRows(ds);
      assert Candidates([]) == [];
      TemplateRowRoundTrip(last);
      assert ds == init + [last];
    } else {
      assert TemplateRows(ds) == [];
    }
  }

  /** The pallet count falls back to 1 for an empty, non-numeric or zero cell, while
      a negative count passes through. */
  lemma PalletDefaults()
    ensures RowToDraft([Str("Bolt")]).palletCount == 1
    ensures RowToDraft([Str("Bolt"), Str(""), Str(""), Str(""), Int(3), Str("many")]).palletCount == 1
    ensures RowToDraft([Str("Bolt"), Str(""), Str(""), Str(""), Int(3), Int(0)]).palletCount == 1
    ensures RowToDraft([Str("Bolt"), Str(""), Str(""), Str(""), Int(3), Int(-2)]).palletCount == -2
    ensures RowToDraft([Str("Bolt")]).quantity == 0
  {
    assert !AllDigits("many") by {
      assert !IsDigit("many"[0]);
    }
  }

  /** A row of text cells, as a sheet typed by hand yields. */
  lemma WidgetRow()
    ensures RowToDraft([Str("Widget"), Str("Tools"), Str("W1"), Str("A-01"), Str("50"), Str("5")])
      == Draft("Widget", "Tools", "W1", "A-01", 50, 5)
  {
    assert AllDigits("50") && AllDigits("5");
    assert "50"[..1] == "5";
    assert DigitsValue("5") == 5;
    assert DigitsValue("50") == 50;
    assert !IsBlank("50") by {
      assert !IsSpace("50"[0]);
    }
    assert !IsBlank("5") by {
      assert !IsSpace("5"[0]);
    }
  }
}
