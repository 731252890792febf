# Nova Inventory: a verified model of the product table

The inventory tool is one PyQt window, `ModernInventory`. It keeps a product table with six
columns: PRODUCT, CATEGORY, COST, MARKUP, SELL PRICE and STOCK. The side panel shows three
totals: INVESTMENT, EST. REVENUE and NET PROFIT. Buttons create a product through a
five-step questionnaire, remove the selected row, and save the table to
`inventory_master.json`. The same file is loaded when the window opens.

This project models that logic in Dafny:

- `pricing.dfy` (module `Pricing`): the sell-price formula `cost * (1 + markup / 100)`, on
  exact reals. It sits beside two properties of the formula itself:
  - `MarkupRecovered`: the markup can be read back from a non-zero cost and its sell price,
    so the SELL PRICE column loses nothing that COST and MARKUP hold.
  - `SellPriceMonotonic`: raising the markup never lowers the price.
- `text.dfy` (module `Text`): Python's `str.strip()`, which the name step of the
  questionnaire uses.
- `table.dfy` (module `Table`): a table row as a value (`Row`), what the analytics pass
  computes (`Repriced`, `Investment`, `Revenue`, `Profit`), and lemmas about those
  functions.
- `storage.dfy` (module `Storage`): the stored file as a sequence of key-to-value records;
  saving a row, reading a record back, and the save/load round trip.
- `inventory.dfy` (module `Inventory`): the window as a class, `ModernInventory`. Its
  fields are the rows, the three label values and the file contents. It has one method
  per operation of the source: `UpdateAnalytics`, `RunQuestionnaire`, `AddRowToTable`,
  `ManualSave`, `DeleteItem` and `LoadData`, plus the constructor. `EditCells` models a
  user typing into the editable cells.

Modelling choices:

- COST, MARKUP and STOCK stay editable in the widget. Only columns 0, 1 and 4 are locked.
  So each of these cells holds what `float()` or `int()` makes of its text: `Some(value)`,
  or `None` when the text does not parse. SELL PRICE holds the exact value last written.
- The dialogs are inputs to `RunQuestionnaire`. Each is a `Reply(value, ok)` pair, matching
  the `(value, ok)` tuple `QInputDialog` returns. What the dialogs themselves guarantee is
  the predicate `DialogsHonoured`: a category from the list, and no negative numbers.
- The selected row (`currentRow()`) is a parameter of `DeleteItem`.
- The file is the field `db`, of type `StoredFile`: `Missing`, `Corrupt`, or `Saved(records)`.
  A record is a `map<string, Field>`. A stored value is `Text` (name, category),
  `Decimal` (cost, markup) or `Whole` (stock). `Decimal` and `Whole` hold what the loader's
  `float()` / `int()` makes of the value.
- STOCK is an unbounded int, as in Python. The analytics pass computes `c * q`, and that
  converts q to a float. From 2^1024 - 2^970 up (in magnitude) the conversion raises
  OverflowError, and the bare `except` skips the row. `Table.Parse` treats such a stock as
  unusable for the pass (`ConvertsToFloat`). Loading still accepts such a stock, because
  `int()` and `add_row_to_table` never convert it.
- Python's `/` on floats is real division here. The model has only products and sums and
  no integer division.

Where the specification of the system and its code disagree, the model follows the code:

- The specification says a corrupt file yields an empty store. The code keeps every row appended
  before the first bad record, and then skips the analytics pass, so the labels keep their
  old values. `LoadData` and the constructor state exactly that.
- The specification says record creation checks that name and category are non-empty. The code
  strips only the name, and the category always comes from a fixed list. The stored name is
  the unstripped text.

## Model

| member | source | states |
|---|---|---|
| Pricing.SellPrice | manager/product_manager.py:166 | sell price is cost inflated by markup percent; equals cost at zero markup, is zero at zero cost, and is at least cost when cost and markup are non-negative |
| Pricing.SellPriceMargin | manager/product_manager.py:137 | what the markup adds on top of the cost is cost * markup / 100 |
| Pricing.MarkupRecovered | manager/product_manager.py:166 | for a non-zero cost the markup is recovered from the sell price (the derivation is invertible) |
| Pricing.SellPriceMonotonic | manager/product_manager.py:137 | on a non-negative cost a larger markup never lowers the sell price |
| Text.Strip | manager/product_manager.py:150 | `str.strip()`: the result is empty exactly when the input is all white space, and otherwise neither starts nor ends with white space |
| Text.TrimStart | manager/product_manager.py:150 | leading white space dropped: the result is a suffix, the dropped part is blank, and it starts with a non-space |
| Text.TrimEnd | manager/product_manager.py:150 | trailing white space dropped: the result is a prefix, the dropped part is blank, and it ends with a non-space |
| Table.Parse | manager/product_manager.py:134-138 | a row is usable by the analytics pass exactly when its COST, MARKUP and STOCK cells parse and the stock converts to a float for `c * q`; its figures are then those cells' values |
| Table.NewRow | manager/product_manager.py:163-172 | the row add_row_to_table writes keeps name and category and holds the given cost, markup and stock. It shows the sell price they give, is usable by the pass when the stock converts to a float, and is in range when its inputs are |
| Table.RepriceRow | manager/product_manager.py:133-142 | one step of the analytics pass: a parsed row now shows its derived sell price and nothing else of it changes; a row that does not parse stays exactly as it was |
| Table.Repriced | manager/product_manager.py:132-142 | after the pass every row that parses shows its current sell price; a table whose prices were current is left unchanged |
| Table.Removed | manager/product_manager.py:185 | removing row i keeps the rows before i in place and moves each later row up by one |
| Table.RowInvestment | manager/product_manager.py:138 | a row the pass abandons adds nothing to INVESTMENT (what a usable row adds is stated by ParsedRowStep) |
| Table.RowRevenue | manager/product_manager.py:139 | a row the pass abandons adds nothing to EST. REVENUE (what a usable row adds is stated by ParsedRowStep) |
| Table.RowRevenueMargin | manager/product_manager.py:137-139 | per usable row, revenue is investment plus the markup's share, markup percent of the cost per unit |
| Table.Investment | manager/product_manager.py:131-138 | the investment of an empty table is 0 |
| Table.Revenue | manager/product_manager.py:131-139 | the revenue of an empty table is 0 |
| Table.Profit | manager/product_manager.py:146 | NET PROFIT of an empty table is 0 |
| Table.ParsedRowStep | manager/product_manager.py:134-141 | a row whose three cells parse to c, m and q, with q within float range, adds c * q to investment and sp * q to revenue, and shows sp = SellPrice(c, m) |
| Table.UnparsedRowStep | manager/product_manager.py:136-142 | a row the pass abandons (a cell that does not parse, or a stock beyond float range) adds 0 to both totals and is left unchanged |
| Table.TotalsStep | manager/product_manager.py:138-139 | one more row of the accumulating loop adds exactly that row's cost and revenue |
| Table.ParsedStep | manager/product_manager.py:134-141 | one loop iteration on a parsed row takes the pass state after r rows to the state after r + 1 rows |
| Table.UnparsedStep | manager/product_manager.py:142 | one loop iteration on an unparsed row: the state after r rows already is the state after r + 1 rows |
| Table.AnalyticsDone | manager/product_manager.py:132-146 | at the end of the loop the table is repriced and the accumulators hold the totals of the table, before and after repricing |
| Table.TotalsAppend | manager/product_manager.py:131-139 | investment and revenue of a concatenation are the sums of the parts |
| Table.TotalsOfRow | manager/product_manager.py:138-139 | a one-row table's totals are that row's contributions |
| Table.TotalsAround | manager/product_manager.py:131-139 | a row anywhere in a table adds exactly its own contribution to each total |
| Table.TotalsSkipUnparsed | manager/product_manager.py:133-142 | a row the pass abandons changes neither total, wherever it stands |
| Table.TotalsWithoutRow | manager/product_manager.py:183-186 | deleting row i lowers each total by exactly that row's contribution |
| Table.RowTotalsIgnorePrice | manager/product_manager.py:134-139 | repricing a row does not change what it contributes |
| Table.RepricedSnoc | manager/product_manager.py:132-141 | repricing a table extended by one row reprices that row on its own |
| Table.RepricedAppendCurrent | manager/product_manager.py:160-161 | a row whose price is current, appended and then repriced, comes through unchanged |
| Table.RepricedConcat | manager/product_manager.py:132-141 | the pass treats every row independently: repricing distributes over concatenation |
| Table.RepricedPrefixStep | manager/product_manager.py:132-141 | rewriting row r of a table repriced up to r gives the table repriced up to r + 1 |
| Table.RepricedKeepsTotals | manager/product_manager.py:134-141 | the SELL PRICE cell does not feed the totals: repricing leaves investment and revenue unchanged |
| Table.RowRevenueCoversInvestment | manager/product_manager.py:137-139 | per row in range, revenue is at least investment |
| Table.HugeStockScenario | manager/product_manager.py:136-142 | a stock of 2^1024 - 2^970 parses as an int but cannot be converted for `c * q`: the row is skipped whole, with both totals 0 and its price left as it was |
| Table.TotalsNonNegative | manager/product_manager.py:131-139 | with all figures in range neither total is negative |
| Table.ProfitNonNegative | manager/product_manager.py:146 | with all figures in range net profit (revenue minus investment) is never negative |
| Table.RemoveUndoesAppend | manager/product_manager.py:163-165 | removing the row just appended gives back the table as it was |
| Table.WidgetScenario | manager/product_manager.py:131-146 | Widget, cost 10, markup 20 %, stock 5: sell price 12, investment 50, revenue 60, profit 10 |
| Table.ZeroCostScenario | manager/product_manager.py:131-146 | two products of cost 0 give 0 for all three totals |
| Storage.ToRecord | manager/product_manager.py:177-178 | the saved record has exactly the keys n, c, co, m, s |
| Storage.SellPriceNotPersisted | manager/product_manager.py:177-178 | two rows that differ only in SELL PRICE save to the same record |
| Storage.SaveRecords | manager/product_manager.py:175-178 | one record per row, in row order, each the row's record |
| Storage.ReadRecord | manager/product_manager.py:192 | reading a record fails exactly when a key is missing, name or category is not text, or cost, markup or stock does not convert; otherwise the five values are those stored |
| Storage.Decode | manager/product_manager.py:192 | a record gives a row exactly when it reads; the row has the record's name, category, cost, markup and stock, and the sell price they give |
| Storage.DecodeToRecord | manager/product_manager.py:177-178 | reading back a saved row gives the row with a fresh sell price (for a row usable by the pass, the row the pass shows); a row whose cells do not parse cannot be read back |
| Storage.LoadedRows | manager/product_manager.py:192 | loading appends one row per record in file order, up to and excluding the first record that fails |
| Storage.LoadedRowsLength | manager/product_manager.py:192 | the count of loaded rows is exactly the index of the first bad record (all records when none is bad) |
| Storage.LoadedRowsCurrent | manager/product_manager.py:192-193 | the rows loading appends come through the analytics pass unchanged, since their prices are already current |
| Storage.SaveThenLoad | manager/product_manager.py:175-194 | save then load into an empty table gives back each row's name, category, cost, markup and stock in order with a fresh sell price, up to the first row whose cells do not parse |
| Storage.SaveThenLoadComplete | manager/product_manager.py:175-194 | when every row parses, the saved table reloads completely; the result is the repriced table, or the very same table if its prices were current |
| Storage.RecordBack | manager/product_manager.py:177-192 | a record with exactly the five keys, each holding a value loading accepts, loads, and saving its row gives the record back |
| Storage.LoadThenSave | manager/product_manager.py:175-194 | an array of such records loads completely, and saving the loaded table writes the very same array |
| Inventory.DialogsHonoured | manager/product_manager.py:151-157 | the dialogs' own guarantees (listed category, figures between 0 and the default maximum) keep the stock within float range |
| Inventory.Questionnaire | manager/product_manager.py:149-160 | a row comes out exactly when all five dialogs were confirmed and the name is not blank. It keeps the unstripped name and the given figures, with their sell price. Under the dialogs' guarantees its category is listed, the pass can use it and its figures are non-negative |
| Inventory.ModernInventory.ShowsTotalsOf | manager/product_manager.py:144-146 | when the labels show a table's totals, NET PROFIT is EST. REVENUE minus INVESTMENT |
| Inventory.ModernInventory.constructor | manager/product_manager.py:9-62 | a new window starts empty with zero labels and loads the file: rows are the loaded rows; the labels show their totals only if every record read |
| Inventory.ModernInventory.UpdateAnalytics | manager/product_manager.py:130-146 | the table becomes its repriced self and the labels show investment, revenue and profit of the table (before and after) |
| Inventory.ModernInventory.AddRowToTable | manager/product_manager.py:163-172 | exactly one new row at the end, all earlier rows and the labels unchanged |
| Inventory.ModernInventory.RunQuestionnaire | manager/product_manager.py:148-161 | if any step is refused nothing changes; otherwise the questionnaire's row is appended after the repriced earlier rows and the labels show the new totals |
| Inventory.ModernInventory.ManualSave | manager/product_manager.py:174-181 | the file holds one record per row, without sell price, and the analytics pass has run; when every row parses, reloading the file gives exactly the current table |
| Inventory.ModernInventory.DeleteItem | manager/product_manager.py:183-186 | with no selection nothing changes; with row i selected exactly that row is removed, later rows move up, and the analytics pass runs |
| Inventory.ModernInventory.LoadData | manager/product_manager.py:188-194 | a missing or corrupt file changes nothing; otherwise the loaded rows are appended in order; on a bad record the rows already appended stay and the labels keep their old values; when every record reads the analytics pass runs |
| Inventory.ModernInventory.EditCells | manager/product_manager.py:168-172 | only COST, MARKUP and STOCK of the edited row change; the labels are not recomputed |

## Left out

- Widget construction, the style sheet, `create_stat_card`, label wiring and the message box
  shown after saving: presentation only.
- The dialogs themselves: their answers are parameters. Their bounds (minimum 0, default
  maximum 2147483647) appear only as the assumption `DialogsHonoured`. The one-decimal
  rounding of `getDouble` is not modelled.
- File I/O and JSON: the file is a sequence of records. An `open` that fails is outside the
  `try` in the source and would end the program; that case is not modelled.
- JSON values are abstracted by what `float()`/`int()` make of them. A name or category
  that is not a string counts as a failed record, and loading stops there. In the source
  such a value need not stop the load. An int matches the `QTableWidgetItem(type)`
  constructor, which gives a complete row with an empty cell, and loading goes on. Other
  values raise in `add_row_to_table` after `insertRow`, which leaves a partly filled row
  and ends the load.
- Storage.ReadRecord: a stored value of the wrong kind (a `Whole` under `co`, say) is a
  failed record. Python would try to convert it.
- A top-level JSON value that is not an array is `Corrupt`. Iterating a JSON object (over
  its keys) is not modelled.
- Floating point: IEEE rounding, `str(float)`, `float(str)`, NaN and infinities. The
  two-decimal display of the sell price and of the labels (`:.2f`, `:,.2f` and " DHS") is
  also left out. Prices are exact reals, and a label holds its value, not its text.
- Qt's own editing machinery: `EditCells` sets the three editable cells to their new parse
  results directly.
- Qt's `removeRow` ignores a row number past the end. `DeleteItem` does the same, then runs
  the analytics pass, as the source does.
- The `__main__` entry point and the Qt event loop.
