/** The inventory window (class ModernInventory of
    manager/product_manager.py) as state: the product table, the three
    totals shown on the side panel and the contents of the inventory file,
    with one method per operation the window's buttons trigger. Dialog
    answers and the row selection are parameters; the file is a field. */
module Inventory {
  import opened Wrappers
  import opened Pricing
  import opened Text
  import opened Table
  import opened Storage

  /** What a Qt input dialog returns: the value and whether OK was pressed. */
  datatype Reply<T> = Reply(value: T, ok: bool)

  /** The choices of the category dialog. */
  const Categories: seq<string> := ["Electronics", "Food", "Clothing", "Other"]

  /** The largest value QInputDialog.getDouble and getInt accept when no
      maximum is given. */
  const DialogMax: int := 2147483647

  /** What the dialogs themselves guarantee on OK: a category from the list
      (the list is not editable), cost and markup between 0.0 and the
      default maximum, stock between 0 and the default maximum. Such a
      stock is always small enough for the analytics pass to use. */
  function DialogsHonoured(category: Reply<string>, cost: Reply<real>, markup: Reply<real>,
                           stock: Reply<int>): (honoured: bool)
    ensures honoured && stock.ok ==> ConvertsToFloat(stock.value)
  {
    && (category.ok ==> category.value in Categories)
    && (cost.ok ==> 0.0 <= cost.value <= DialogMax as real)
    && (markup.ok ==> 0.0 <= markup.value <= DialogMax as real)
    && (stock.ok ==> 0 <= stock.value <= DialogMax)
  }

  /** The entry questionnaire's validation chain: the row it adds, if any.
      A row comes out only when every dialog was confirmed and the name is
      not blank; it keeps the name as typed, unstripped. */
  function Questionnaire(name: Reply<string>, category: Reply<string>, cost: Reply<real>,
                         markup: Reply<real>, stock: Reply<int>): (row: Option<Row>)
    ensures row.Some? <==>
      name.ok && !Blank(name.value) && category.ok && cost.ok && markup.ok && stock.ok
    ensures row.Some? ==>
      && row.value.name == name.value && row.value.category == category.value
      && row.value.cost == Some(cost.value) && row.value.markup == Some(markup.value)
      && row.value.stock == Some(stock.value)
      && row.value.sellPrice == SellPrice(cost.value, markup.value)
    ensures row.Some? && DialogsHonoured(category, cost, markup, stock) ==>
      && row.value.category in Categories
      && Parse(row.value) == Some(Figures(cost.value, markup.value, stock.value))
      && InRange(row.value) && row.value.sellPrice >= cost.value
  {
    if !(name.ok && Strip(name.value) != []) then None
    else if !category.ok then None
    else if !cost.ok then None
    else if !markup.ok then None
    else if !stock.ok then None
    else Some(NewRow(name.value, category.value, cost.value, markup.value, stock.value))
  }

  class ModernInventory {
    /** The table widget's rows, in display order. */
    var rows: seq<Row>
    /** The INVESTMENT, EST. REVENUE and NET PROFIT labels. */
    var investment: real
    var revenue: real
    var profit: real
    /** The contents of inventory_master.json. */
    var db: StoredFile

    /** The three labels show the totals of table s; NET PROFIT is then
        EST. REVENUE minus INVESTMENT as shown. */
    function ShowsTotalsOf(s: seq<Row>): (shows: bool)
      reads this
      ensures shows ==> profit == revenue - investment
    {
      investment == Investment(s) && revenue == Revenue(s) && profit == Profit(s)
    }

    /** Opening the window: an empty table, labels at zero, then the
        inventory file is loaded. */
    constructor (stored: StoredFile)
      ensures db == stored
      ensures rows == if stored.Saved? then LoadedRows(stored.records) else []
      ensures if stored.Saved? && LoadsCompletely(stored.records) then ShowsTotalsOf(rows)
              else investment == 0.0 && revenue == 0.0 && profit == 0.0
    {
      rows := [];
      investment, revenue, profit := 0.0, 0.0, 0.0;
      db := stored;
      new;
      LoadData();
      if stored.Saved? {
        EmptyPrefix(LoadedRows(stored.records));
        LoadedRowsCurrent(stored.records);
      }
    }

    /** The analytics pass: every row that parses gets its SELL PRICE
        rewritten and adds to both totals; every other row is skipped
        whole. The labels then show the totals of the table. */
    method UpdateAnalytics()
      modifies this
      ensures rows == Repriced(old(rows))
      ensures ShowsTotalsOf(old(rows)) && ShowsTotalsOf(rows)
      ensures db == old(db)
    {
      var source := rows;
      var table := source;
      var totalCost, totalRevenue := 0.0, 0.0;
      var r := 0;
      while r < |table|
        invariant 0 <= r <= |source|
        invariant table == Repriced(source[..r]) + source[r..]
        invariant totalCost == Investment(source[..r])
        invariant totalRevenue == Revenue(source[..r])
        invariant db == old(db)
      {
        assert table[r] == source[r] by {
          RepricedPrefixStep(source, r, table);
        }
        var row := table[r];
        // c * q converts q to a float: a stock beyond float range raises
        // there, before either total changes, and the row is skipped.
        if CellsParse(row) && ConvertsToFloat(row.stock.value) {
          var c, m, q := row.cost.value, row.markup.value, row.stock.value;
          var sp := SellPrice(c, m);
          ParsedStep(source, r, table, totalCost, totalRevenue, c, m, q, sp);
          totalCost := totalCost + c * q as real;
          totalRevenue := totalRevenue + sp * q as real;
          table := table[r := row.(sellPrice := sp)];
        } else {
          UnparsedStep(source, r, table, totalCost, totalRevenue);
        }
        r := r + 1;
      }
      AnalyticsDone(source, table, totalCost, totalRevenue);
      rows := table;
      investment, revenue, profit := totalCost, totalRevenue, totalRevenue - totalCost;
    }

    /** add_row_to_table: one new row at the end, its sell price derived
        from its cost and markup; the rows already there are untouched. */
    method AddRowToTable(name: string, category: string, cost: real, markup: real, stock: int)
      modifies this
      ensures rows == old(rows) + [NewRow(name, category, cost, markup, stock)]
      ensures investment == old(investment) && revenue == old(revenue) && profit == old(profit)
      ensures db == old(db)
    {
      var sp := SellPrice(cost, markup);
      rows := rows + [Row(name, category, Some(cost), Some(markup), sp, Some(stock))];
    }

    /** The entry questionnaire, with the five dialog answers as inputs:
        the first refused step ends it with nothing changed; when every
        step passes, exactly one row is appended and the analytics pass
        runs. */
    method RunQuestionnaire(name: Reply<string>, category: Reply<string>, cost: Reply<real>,
                            markup: Reply<real>, stock: Reply<int>)
      modifies this
      ensures db == old(db)
      ensures Questionnaire(name, category, cost, markup, stock).None? ==>
        rows == old(rows) && investment == old(investment) && revenue == old(revenue) && profit == old(profit)
      ensures Questionnaire(name, category, cost, markup, stock).Some? ==>
        var row := Questionnaire(name, category, cost, markup, stock).value;
        && rows == Repriced(old(rows)) + [row]
        && ShowsTotalsOf(rows)
    {
      if !(name.ok && Strip(name.value) != []) { return; }
      if !category.ok { return; }
      if !cost.ok { return; }
      if !markup.ok { return; }
      if !stock.ok { return; }
      ghost var row := NewRow(name.value, category.value, cost.value, markup.value, stock.value);
      assert Questionnaire(name, category, cost, markup, stock) == Some(row);
      AddRowToTable(name.value, category.value, cost.value, markup.value, stock.value);
      UpdateAnalytics();
      RepricedAppendCurrent(old(rows), row);
    }

    /** The save button: the file now holds one record per row, sell price
        left out, and the analytics pass runs. */
    method ManualSave()
      modifies this
      ensures db == Saved(SaveRecords(old(rows)))
      ensures rows == Repriced(old(rows)) && ShowsTotalsOf(rows)
      ensures (forall j :: 0 <= j < |old(rows)| ==> Parse(old(rows)[j]).Some?) ==>
        LoadsCompletely(db.records) && LoadedRows(db.records) == rows
    {
      var data: seq<Record> := [];
      var r := 0;
      while r < |rows|
        invariant 0 <= r <= |rows|
        invariant data == SaveRecords(rows[..r])
      {
        assert rows[..r + 1][..r] == rows[..r];
        data := data + [ToRecord(rows[r])];
        r := r + 1;
      }
      assert rows[..r] == rows;
      db := Saved(data);
      UpdateAnalytics();
      if forall j :: 0 <= j < |old(rows)| ==> Parse(old(rows)[j]).Some? {
        SaveThenLoadComplete(old(rows));
      }
    }

    /** The remove button, with the table's current row as input (-1 when
        nothing is selected). With a selection, that row is removed (the
        widget ignores a row number past the end) and the analytics pass
        runs; without one, nothing changes. */
    method DeleteItem(current: int)
      modifies this
      ensures db == old(db)
      ensures current < 0 ==>
        rows == old(rows) && investment == old(investment) && revenue == old(revenue) && profit == old(profit)
      ensures 0 <= current < |old(rows)| ==>
        rows == Repriced(Removed(old(rows), current)) && ShowsTotalsOf(rows)
      ensures current >= |old(rows)| ==> rows == Repriced(old(rows)) && ShowsTotalsOf(rows)
    {
      if current >= 0 {
        if current < |rows| {
          rows := rows[..current] + rows[current + 1..];
        }
        UpdateAnalytics();
      }
    }

    /** Loading the inventory file. Nothing happens when it is missing or
        unreadable. Otherwise its records are appended in order, each as
        add_row_to_table writes it, until one fails to read: the rows
        appended before it stay and the analytics pass is not run. When
        every record reads, the analytics pass runs. */
    method LoadData()
      modifies this
      ensures db == old(db)
      ensures !db.Saved? ==>
        rows == old(rows) && investment == old(investment) && revenue == old(revenue) && profit == old(profit)
      ensures db.Saved? && !LoadsCompletely(db.records) ==>
        && rows == old(rows) + LoadedRows(db.records)
        && investment == old(investment) && revenue == old(revenue) && profit == old(profit)
      ensures db.Saved? && LoadsCompletely(db.records) ==>
        rows == Repriced(old(rows) + LoadedRows(db.records)) && ShowsTotalsOf(rows)
    {
      if db.Saved? {
        var records := db.records;
        var i, ok := 0, true;
        while ok && i < |records|
          invariant 0 <= i <= |records|
          invariant forall j :: 0 <= j < i ==> Decode(records[j]).Some?
          invariant !ok ==> i < |records| && Decode(records[i]).None?
          invariant |rows| == |old(rows)| + i
          invariant rows[..|old(rows)|] == old(rows)
          invariant forall j :: 0 <= j < i ==> Some(rows[|old(rows)| + j]) == Decode(records[j])
          invariant db == old(db)
          invariant investment == old(investment) && revenue == old(revenue) && profit == old(profit)
          decreases |records| - i, ok
        {
          match ReadRecord(records[i])
          case None =>
            ok := false;
          case Some(e) =>
            AddRowToTable(e.name, e.category, e.cost, e.markup, e.stock);
            i := i + 1;
        }
        LoadedRowsLength(records, i);
        assert rows == old(rows) + LoadedRows(records);
        if ok {
          UpdateAnalytics();
        }
      }
    }

    /** Typing into the editable COST, MARKUP and STOCK cells of row r (each
        now holds what its new text parses to). PRODUCT, CATEGORY and SELL
        PRICE are read-only and stay as they are; no signal reruns the
        analytics pass. */
    method EditCells(r: nat, cost: Option<real>, markup: Option<real>, stock: Option<int>)
      requires r < |rows|
      modifies this
      ensures rows == old(rows)[r := old(rows)[r].(cost := cost, markup := markup, stock := stock)]
      ensures investment == old(investment) && revenue == old(revenue) && profit == old(profit)
      ensures db == old(db)
    {
      rows := rows[r := rows[r].(cost := cost, markup := markup, stock := stock)];
    }
  }
}
