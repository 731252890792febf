/** The product table of the inventory window, as values: one Row per table
    row, in display order, and the specification functions that say what
    the analytics pass computes over it. */
module Table {
  import opened Wrappers
  import opened Pricing

  /** One table row: PRODUCT, CATEGORY, COST, MARKUP, SELL PRICE, STOCK.
      PRODUCT, CATEGORY and SELL PRICE are read-only in the widget; COST,
      MARKUP and STOCK stay editable, so each holds what float() (cost,
      markup) or int() (stock) makes of the cell's text: None when that
      text does not parse. SELL PRICE is the value last written there. */
  datatype Row = Row(
    name: string,
    category: string,
    cost: Option<real>,
    markup: Option<real>,
    sellPrice: real,
    stock: Option<int>)

  /** The three numeric inputs of a row, once all of them parse. */
  datatype Figures = Figures(cost: real, markup: real, stock: int)

  /** The bound of Python's int-to-float conversion: an int whose magnitude,
      rounded to 53 significant bits with ties to even, would reach 2^1024
      raises OverflowError. That happens exactly from 2^1024 - 2^970 on. */
  const FloatIntLimit: int := 179769313486231580793728971405303415079934132710037826936173778980444968292764750946649017977587207096330286416692887910946555547851940402630657488671505820681908902000708383676273854845817711531764475730270069855571366959622842914819860834936475292719074168444365510704342711559699508093042880177904174497792

  /** q converts to a float (as it must before c * q can be taken). */
  predicate ConvertsToFloat(q: int)
  {
    -FloatIntLimit < q < FloatIntLimit
  }

  /** The texts of the COST, MARKUP and STOCK cells are accepted by float(),
      float() and int(). */
  predicate CellsParse(row: Row)
  {
    row.cost.Some? && row.markup.Some? && row.stock.Some?
  }

  /** The analytics pass reads cost, markup and stock in turn and then takes
      c * q, which converts the stock to a float. The row is usable only
      when all three cells parse and that conversion does not overflow;
      otherwise the pass abandons the row. */
  function Parse(row: Row): (f: Option<Figures>)
    ensures f.Some? <==> CellsParse(row) && ConvertsToFloat(row.stock.value)
    ensures f.Some? ==>
      row.cost == Some(f.value.cost) && row.markup == Some(f.value.markup) && row.stock == Some(f.value.stock)
  {
    if CellsParse(row) && ConvertsToFloat(row.stock.value) then
      Some(Figures(row.cost.value, row.markup.value, row.stock.value))
    else None
  }

  /** The sell price shown agrees with the cost and markup (vacuous for a
      row that does not parse). */
  predicate PriceCurrent(row: Row)
  {
    Parse(row).Some? ==> row.sellPrice == SellPrice(Parse(row).value.cost, Parse(row).value.markup)
  }

  predicate PricesCurrent(rows: seq<Row>)
  {
    forall j :: 0 <= j < |rows| ==> PriceCurrent(rows[j])
  }

  /** Figures as the entry dialogs allow them: nothing negative. */
  predicate InRange(row: Row)
  {
    Parse(row).Some? ==>
      Parse(row).value.cost >= 0.0 && Parse(row).value.markup >= 0.0 && Parse(row).value.stock >= 0
  }

  predicate AllInRange(rows: seq<Row>)
  {
    forall j :: 0 <= j < |rows| ==> InRange(rows[j])
  }

  /** The row that add_row_to_table writes: the given cells, and a sell
      price derived from cost and markup. */
  function NewRow(name: string, category: string, cost: real, markup: real, stock: int): (row: Row)
    ensures row.name == name && row.category == category
    ensures row.cost == Some(cost) && row.markup == Some(markup) && row.stock == Some(stock)
    ensures row.sellPrice == SellPrice(cost, markup) && PriceCurrent(row)
    ensures ConvertsToFloat(stock) ==> Parse(row) == Some(Figures(cost, markup, stock))
    ensures cost >= 0.0 && markup >= 0.0 && stock >= 0 ==> InRange(row) && row.sellPrice >= cost
  {
    Row(name, category, Some(cost), Some(markup), SellPrice(cost, markup), Some(stock))
  }

  /** One step of the analytics pass on one row: a row that parses gets its
      SELL PRICE rewritten, any other row is left as it is. */
  function RepriceRow(row: Row): (r: Row)
    ensures PriceCurrent(r)
    ensures Parse(r) == Parse(row)
    ensures r.name == row.name && r.category == row.category
    ensures r.cost == row.cost && r.markup == row.markup && r.stock == row.stock
    ensures Parse(row).None? || PriceCurrent(row) ==> r == row
  {
    match Parse(row)
    case None => row
    case Some(f) => row.(sellPrice := SellPrice(f.cost, f.markup))
  }

  /** The table after the analytics pass. */
  function Repriced(rows: seq<Row>): (r: seq<Row>)
    ensures |r| == |rows|
    ensures PricesCurrent(r)
    ensures PricesCurrent(rows) ==> r == rows
  {
    seq(|rows|, j requires 0 <= j < |rows| => RepriceRow(rows[j]))
  }

  /** The table after row i is removed: earlier rows keep their
      place, later rows move up by one. */
  function Removed(rows: seq<Row>, i: nat): (r: seq<Row>)
    requires i < |rows|
    ensures |r| == |rows| - 1
    ensures forall j :: 0 <= j < i ==> r[j] == rows[j]
    ensures forall j :: i <= j < |r| ==> r[j] == rows[j + 1]
  {
    rows[..i] + rows[i + 1..]
  }

  /** What one row adds to the INVESTMENT total: cost times stock, or
      nothing for a row the pass abandons. */
  function RowInvestment(row: Row): (inv: real)
    ensures Parse(row).None? ==> inv == 0.0
  {
    match Parse(row)
    case None => 0.0
    case Some(f) => f.cost * f.stock as real
  }

  /** What one row adds to the EST. REVENUE total: sell price times stock,
      or nothing for a row the pass abandons. */
  function RowRevenue(row: Row): (rev: real)
    ensures Parse(row).None? ==> rev == 0.0
  {
    match Parse(row)
    case None => 0.0
    case Some(f) => SellPrice(f.cost, f.markup) * f.stock as real
  }

  /** One step of the analytics pass on a row whose cost, markup and stock
      parse to c, m and q: with sp the sell price SellPrice(c, m), it adds
      c * q and sp * q to the totals and shows sp. */
  lemma ParsedRowStep(row: Row, c: real, m: real, q: int, sp: real)
    requires row.cost == Some(c) && row.markup == Some(m) && row.stock == Some(q)
    requires ConvertsToFloat(q)
    requires sp == SellPrice(c, m)
    ensures RowInvestment(row) == c * q as real
    ensures RowRevenue(row) == sp * q as real
    ensures RepriceRow(row) == row.(sellPrice := sp)
  {
  }

  /** One step of the analytics pass on a row it abandons (a cell that does
      not parse, or a stock too large for a float): it adds nothing and
      leaves the row as it is. */
  lemma UnparsedRowStep(row: Row)
    requires Parse(row).None?
    ensures RowInvestment(row) == 0.0 && RowRevenue(row) == 0.0
    ensures RepriceRow(row) == row
  {
  }

  /** (c + share) * q splits into c * q and share * q. */
  lemma SplitProduct(c: real, share: real, sp: real, q: real)
    requires sp == c + share
    ensures sp * q == c * q + share * q
  {
  }

  lemma ProductNonNegative(x: real, y: real)
    requires x >= 0.0 && y >= 0.0
    ensures x * y >= 0.0
  {
  }

  /** Per row, revenue is investment plus the markup's share: markup
      percent of the cost for each unit. */
  lemma RowRevenueMargin(row: Row, f: Figures)
    requires Parse(row) == Some(f)
    ensures RowRevenue(row) == RowInvestment(row) + (f.cost * f.markup / 100.0) * f.stock as real
  {
    var q := f.stock as real;
    var share := f.cost * f.markup / 100.0;
    var sp := SellPrice(f.cost, f.markup);
    SellPriceMargin(f.cost, f.markup);
    SplitProduct(f.cost, share, sp, q);
  }

  /** Per row, revenue is never below investment when the figures are in
      range. */
  lemma RowRevenueCoversInvestment(row: Row)
    requires InRange(row)
    ensures RowRevenue(row) >= RowInvestment(row)
  {
    if Parse(row).Some? {
      var f := Parse(row).value;
      RowRevenueMargin(row, f);
      ProductNonNegative(f.cost, f.markup);
      ProductNonNegative(f.cost * f.markup / 100.0, f.stock as real);
    }
  }

  /** INVESTMENT: the sum of cost * stock over the rows that parse, taken in
      table order (as the accumulating loop does). */
  function Investment(rows: seq<Row>): (total: real)
    ensures rows == [] ==> total == 0.0
    decreases |rows|
  {
    if rows == [] then 0.0
    else Investment(rows[..|rows| - 1]) + RowInvestment(rows[|rows| - 1])
  }

  /** EST. REVENUE: the sum of sell price * stock over the rows that parse. */
  function Revenue(rows: seq<Row>): (total: real)
    ensures rows == [] ==> total == 0.0
    decreases |rows|
  {
    if rows == [] then 0.0
    else Revenue(rows[..|rows| - 1]) + RowRevenue(rows[|rows| - 1])
  }

  /** NET PROFIT: revenue minus investment. */
  function Profit(rows: seq<Row>): (p: real)
    ensures rows == [] ==> p == 0.0
  {
    Revenue(rows) - Investment(rows)
  }

  /** The totals split over a concatenation of tables. */
  lemma {:induction false} TotalsAppend(a: seq<Row>, b: seq<Row>)
    ensures Investment(a + b) == Investment(a) + Investment(b)
    ensures Revenue(a + b) == Revenue(a) + Revenue(b)
    decreases |b|
  {
    if b == [] {
      assert a + b == a;
    } else {
      var b' := b[..|b| - 1];
      assert (a + b)[..|a + b| - 1] == a + b';
      assert (a + b)[|a + b| - 1] == b[|b| - 1];
      TotalsAppend(a, b');
    }
  }

  /** Extending a prefix of the table by one row adds that row's figures:
      the step of the accumulating loop. */
  lemma TotalsStep(rows: seq<Row>, r: nat)
    requires r < |rows|
    ensures Investment(rows[..r + 1]) == Investment(rows[..r]) + RowInvestment(rows[r])
    ensures Revenue(rows[..r + 1]) == Revenue(rows[..r]) + RowRevenue(rows[r])
  {
    assert rows[..r + 1][..r] == rows[..r];
  }

  /** The table part-way through the analytics pass: rows before r are
      repriced, the rest untouched. Repricing row r moves the boundary on
      by one. */
  lemma RepricedPrefixStep(rows: seq<Row>, r: nat, table: seq<Row>)
    requires r < |rows|
    requires table == Repriced(rows[..r]) + rows[r..]
    ensures table[r] == rows[r]
    ensures table[r := RepriceRow(rows[r])] == Repriced(rows[..r + 1]) + rows[r + 1..]
  {
    assert rows[..r + 1] == rows[..r] + [rows[r]];
    RepricedSnoc(rows[..r], rows[r]);
    assert rows[r..] == [rows[r]] + rows[r + 1..];
  }

  /** One iteration of the analytics pass on a row r that parses to c, m
      and q, with sp its sell price: from the state after r rows (those
      repriced, their totals accumulated) to the state after r + 1 rows. */
  lemma ParsedStep(rows: seq<Row>, r: nat, table: seq<Row>, totalCost: real, totalRevenue: real,
                   c: real, m: real, q: int, sp: real)
    requires r < |rows|
    requires table == Repriced(rows[..r]) + rows[r..]
    requires totalCost == Investment(rows[..r]) && totalRevenue == Revenue(rows[..r])
    requires rows[r].cost == Some(c) && rows[r].markup == Some(m) && rows[r].stock == Some(q)
    requires ConvertsToFloat(q)
    requires sp == SellPrice(c, m)
    ensures table[r := rows[r].(sellPrice := sp)] == Repriced(rows[..r + 1]) + rows[r + 1..]
    ensures totalCost + c * q as real == Investment(rows[..r + 1])
    ensures totalRevenue + sp * q as real == Revenue(rows[..r + 1])
  {
    RepricedPrefixStep(rows, r, table);
    TotalsStep(rows, r);
    ParsedRowStep(rows[r], c, m, q, sp);
  }

  /** One iteration of the analytics pass on a row r that does not parse:
      the table and the totals are already those after r + 1 rows. */
  lemma UnparsedStep(rows: seq<Row>, r: nat, table: seq<Row>, totalCost: real, totalRevenue: real)
    requires r < |rows|
    requires table == Repriced(rows[..r]) + rows[r..]
    requires totalCost == Investment(rows[..r]) && totalRevenue == Revenue(rows[..r])
    requires !(CellsParse(rows[r]) && ConvertsToFloat(rows[r].stock.value))
    ensures table == Repriced(rows[..r + 1]) + rows[r + 1..]
    ensures totalCost == Investment(rows[..r + 1]) && totalRevenue == Revenue(rows[..r + 1])
  {
    RepricedPrefixStep(rows, r, table);
    TotalsStep(rows, r);
    UnparsedRowStep(rows[r]);
    assert table == table[r := rows[r]];
  }

  /** The analytics pass at its end: every row repriced, and the totals
      those of the whole table, before and after repricing alike. */
  lemma AnalyticsDone(rows: seq<Row>, table: seq<Row>, totalCost: real, totalRevenue: real)
    requires table == Repriced(rows[..|rows|]) + rows[|rows|..]
    requires totalCost == Investment(rows[..|rows|]) && totalRevenue == Revenue(rows[..|rows|])
    ensures table == Repriced(rows)
    ensures totalCost == Investment(rows) && totalRevenue == Revenue(rows)
    ensures totalCost == Investment(table) && totalRevenue == Revenue(table)
  {
    assert rows[..|rows|] == rows && rows[|rows|..] == [];
    assert table == Repriced(rows);
    RepricedKeepsTotals(rows);
  }

  /** A one-row table contributes exactly that row's figures. */
  lemma TotalsOfRow(row: Row)
    ensures Investment([row]) == RowInvestment(row)
    ensures Revenue([row]) == RowRevenue(row)
  {
    assert [row][..0] == [];
  }

  /** A row anywhere in a table contributes its own figures, and only them. */
  lemma TotalsAround(a: seq<Row>, row: Row, b: seq<Row>)
    ensures Investment(a + [row] + b) == Investment(a + b) + RowInvestment(row)
    ensures Revenue(a + [row] + b) == Revenue(a + b) + RowRevenue(row)
  {
    TotalsAppend(a + [row], b);
    TotalsAppend(a, [row]);
    TotalsAppend(a, b);
    TotalsOfRow(row);
  }

  /** A row the analytics pass abandons (a cell that does not parse, or a
      stock too large for a float) is skipped whole: wherever it stands, the
      totals are those of the table without it. */
  lemma TotalsSkipUnparsed(a: seq<Row>, row: Row, b: seq<Row>)
    requires Parse(row).None?
    ensures Investment(a + [row] + b) == Investment(a + b)
    ensures Revenue(a + [row] + b) == Revenue(a + b)
  {
    TotalsAround(a, row, b);
  }

  /** Appending to an empty sequence gives the appended part. */
  lemma EmptyPrefix<T>(s: seq<T>)
    ensures [] + s == s
  {
  }

  /** A sequence is its part before i, its element i and its part after i. */
  lemma SplitAt<T>(s: seq<T>, i: nat)
    requires i < |s|
    ensures s == s[..i] + [s[i]] + s[i + 1..]
  {
  }

  /** Removing row i takes exactly that row's contribution off both totals. */
  lemma TotalsWithoutRow(rows: seq<Row>, i: nat)
    requires i < |rows|
    ensures Investment(Removed(rows, i)) == Investment(rows) - RowInvestment(rows[i])
    ensures Revenue(Removed(rows, i)) == Revenue(rows) - RowRevenue(rows[i])
  {
    SplitAt(rows, i);
    TotalsAround(rows[..i], rows[i], rows[i + 1..]);
  }

  /** Repricing a row does not change what it contributes to the totals. */
  lemma RowTotalsIgnorePrice(row: Row)
    ensures RowInvestment(RepriceRow(row)) == RowInvestment(row)
    ensures RowRevenue(RepriceRow(row)) == RowRevenue(row)
  {
  }

  /** Repricing a table extended by one row reprices that row on its own. */
  lemma RepricedSnoc(init: seq<Row>, last: Row)
    ensures Repriced(init + [last]) == Repriced(init) + [RepriceRow(last)]
  {
    var r, r' := Repriced(init + [last]), Repriced(init) + [RepriceRow(last)];
    assert |r| == |r'|;
    forall j | 0 <= j < |r| ensures r[j] == r'[j] {
      if j < |init| {
        assert (init + [last])[j] == init[j];
      }
    }
  }

  /** A row whose price is already current comes through the analytics
      pass unchanged at the end of the table. */
  lemma RepricedAppendCurrent(rows: seq<Row>, row: Row)
    requires PriceCurrent(row)
    ensures Repriced(rows + [row]) == Repriced(rows) + [row]
  {
    RepricedSnoc(rows, row);
  }

  /** The analytics pass treats each row on its own. */
  lemma RepricedConcat(a: seq<Row>, b: seq<Row>)
    ensures Repriced(a + b) == Repriced(a) + Repriced(b)
  {
    var r, r' := Repriced(a + b), Repriced(a) + Repriced(b);
    assert |r| == |r'|;
    forall j | 0 <= j < |r| ensures r[j] == r'[j] {
      if j < |a| {
        assert (a + b)[j] == a[j];
      } else {
        assert (a + b)[j] == b[j - |a|];
      }
    }
  }

  /** The SELL PRICE cell does not feed the totals: the analytics pass can
      rewrite it without changing what the totals are. */
  lemma {:induction false} RepricedKeepsTotals(rows: seq<Row>)
    ensures Investment(Repriced(rows)) == Investment(rows)
    ensures Revenue(Repriced(rows)) == Revenue(rows)
    decreases |rows|
  {
    if rows != [] {
      var init, last := rows[..|rows| - 1], rows[|rows| - 1];
      assert rows == init + [last];
      RepricedSnoc(init, last);
      RepricedKeepsTotals(init);
      TotalsAppend(Repriced(init), [RepriceRow(last)]);
      TotalsAppend(init, [last]);
      TotalsOfRow(last);
      TotalsOfRow(RepriceRow(last));
      RowTotalsIgnorePrice(last);
    }
  }

  /** With every figure in range, neither total is negative. */
  lemma {:induction false} TotalsNonNegative(rows: seq<Row>)
    requires AllInRange(rows)
    ensures Investment(rows) >= 0.0 && Revenue(rows) >= 0.0
    decreases |rows|
  {
    if rows != [] {
      var init, last := rows[..|rows| - 1], rows[|rows| - 1];
      assert AllInRange(init) by {
        forall j | 0 <= j < |init| ensures InRange(init[j]) {
          assert init[j] == rows[j];
        }
      }
      TotalsNonNegative(init);
      assert InRange(last);
      if Parse(last).Some? {
        var f := Parse(last).value;
        var q := f.stock as real;
        var sp := SellPrice(f.cost, f.markup);
        assert sp >= f.cost >= 0.0 && q >= 0.0;
        assert f.cost * q >= 0.0;
        assert sp * q >= 0.0;
      }
    }
  }

  /** With every figure in range, NET PROFIT is never negative. */
  lemma {:induction false} ProfitNonNegative(rows: seq<Row>)
    requires AllInRange(rows)
    ensures Profit(rows) >= 0.0
    decreases |rows|
  {
    if rows != [] {
      var init := rows[..|rows| - 1];
      assert AllInRange(init) by {
        forall j | 0 <= j < |init| ensures InRange(init[j]) {
          assert init[j] == rows[j];
        }
      }
      ProfitNonNegative(init);
      RowRevenueCoversInvestment(rows[|rows| - 1]);
    }
  }

  /** Adding a row and then removing it (it is the last one) gives back the
      table as it was. */
  lemma RemoveUndoesAppend(rows: seq<Row>, row: Row)
    ensures Removed(rows + [row], |rows|) == rows
  {
  }

  /** One product "Widget" in category Other, cost 10, markup 20 %, stock 5:
      sell price 12, investment 50, revenue 60, profit 10. */
  lemma WidgetScenario()
    ensures var t := [NewRow("Widget", "Other", 10.0, 20.0, 5)];
      t[0].sellPrice == 12.0 && Investment(t) == 50.0 && Revenue(t) == 60.0 && Profit(t) == 10.0
  {
    TotalsOfRow(NewRow("Widget", "Other", 10.0, 20.0, 5));
  }

  /** A STOCK of 2^1024 - 2^970 or more parses as an int, but c * q cannot
      convert it to a float: the analytics pass skips the row whole, with
      nothing added to either total and its SELL PRICE left as it was. */
  lemma HugeStockScenario(cost: real, markup: real, price: real)
    ensures var row := Row("Bulk", "Other", Some(cost), Some(markup), price, Some(FloatIntLimit));
      && CellsParse(row) && Parse(row).None?
      && Investment([row]) == 0.0 && Revenue([row]) == 0.0 && Repriced([row]) == [row]
  {
    var row := Row("Bulk", "Other", Some(cost), Some(markup), price, Some(FloatIntLimit));
    TotalsOfRow(row);
  }

  /** Products that cost nothing give zero totals whatever their markup. */
  lemma ZeroCostScenario(m1: real, q1: int, m2: real, q2: int)
    ensures var t := [NewRow("A", "Food", 0.0, m1, q1), NewRow("B", "Food", 0.0, m2, q2)];
      Investment(t) == 0.0 && Revenue(t) == 0.0 && Profit(t) == 0.0
  {
    var a, b := NewRow("A", "Food", 0.0, m1, q1), NewRow("B", "Food", 0.0, m2, q2);
    assert [a, b] == [a] + [b];
    TotalsAppend([a], [b]);
    TotalsOfRow(a);
    TotalsOfRow(b);
  }
}
