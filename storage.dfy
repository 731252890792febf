/** What the inventory file inventory_master.json holds, and the two
    mappings between table rows and stored records: the one the save
    button writes and the one loading reads back. The file is a sequence of
    key-to-value records; the JSON text and the file system are not part
    of this model. */
module Storage {
  import opened Wrappers
  import opened Table
  import opened Pricing

  /** A stored value. Names and categories are kept as text. The cost,
      markup and stock values are cell texts, held as what the loader's
      float() (cost, markup) or int() (stock) makes of them. */
  datatype Field =
    | Text(text: string)
    | Decimal(asReal: Option<real>)
    | Whole(asInt: Option<int>)

  /** One JSON object of the stored array. */
  type Record = map<string, Field>

  /** The state of the inventory file: absent, not a JSON array Python can
      iterate (unreadable JSON), or an array of records. */
  datatype StoredFile = Missing | Corrupt | Saved(records: seq<Record>)

  /** The record saved for one row: PRODUCT under "n", CATEGORY under "c",
      COST under "co", MARKUP under "m" and STOCK under "s". */
  function ToRecord(row: Row): (rec: Record)
    ensures rec.Keys == {"n", "c", "co", "m", "s"}
  {
    map["n" := Text(row.name), "c" := Text(row.category),
        "co" := Decimal(row.cost), "m" := Decimal(row.markup), "s" := Whole(row.stock)]
  }

  /** The SELL PRICE column is never persisted: two rows that differ only in
      it are saved alike. */
  lemma SellPriceNotPersisted(row: Row, price: real)
    ensures ToRecord(row.(sellPrice := price)) == ToRecord(row)
  {
  }

  /** The array the save button writes: one record per row, in row order. */
  function SaveRecords(rows: seq<Row>): (records: seq<Record>)
    ensures |records| == |rows|
    ensures forall j :: 0 <= j < |rows| ==> records[j] == ToRecord(rows[j])
    decreases |rows|
  {
    if rows == [] then []
    else SaveRecords(rows[..|rows| - 1]) + [ToRecord(rows[|rows| - 1])]
  }

  /** The five values add_row_to_table receives for one product. */
  datatype Entry = Entry(name: string, category: string, cost: real, markup: real, stock: int)

  /** Reading one record as the loader does (i["n"], i["c"], float(i["co"]),
      float(i["m"]), int(i["s"])): None when a key is missing, name or
      category is not text, or cost, markup or stock does not convert. */
  function ReadRecord(rec: Record): (e: Option<Entry>)
    ensures e.Some? <==>
      && "n" in rec && rec["n"].Text? && "c" in rec && rec["c"].Text?
      && "co" in rec && rec["co"] != Decimal(None) && rec["co"].Decimal?
      && "m" in rec && rec["m"] != Decimal(None) && rec["m"].Decimal?
      && "s" in rec && rec["s"] != Whole(None) && rec["s"].Whole?
    ensures e.Some? ==>
      && rec["n"] == Text(e.value.name) && rec["c"] == Text(e.value.category)
      && rec["co"] == Decimal(Some(e.value.cost)) && rec["m"] == Decimal(Some(e.value.markup))
      && rec["s"] == Whole(Some(e.value.stock))
  {
    if && "n" in rec && rec["n"].Text?
       && "c" in rec && rec["c"].Text?
       && "co" in rec && rec["co"].Decimal? && rec["co"].asReal.Some?
       && "m" in rec && rec["m"].Decimal? && rec["m"].asReal.Some?
       && "s" in rec && rec["s"].Whole? && rec["s"].asInt.Some?
    then
      Some(Entry(rec["n"].text, rec["c"].text,
                 rec["co"].asReal.value, rec["m"].asReal.value, rec["s"].asInt.value))
    else None
  }

  /** The row loading appends for one record, or None when reading it fails. */
  function Decode(rec: Record): (row: Option<Row>)
    ensures row.Some? <==> ReadRecord(rec).Some?
    ensures row.Some? ==>
      var e := ReadRecord(rec).value;
      && row.value.name == e.name && row.value.category == e.category
      && row.value.cost == Some(e.cost) && row.value.markup == Some(e.markup)
      && row.value.stock == Some(e.stock)
      && row.value.sellPrice == SellPrice(e.cost, e.markup) && PriceCurrent(row.value)
  {
    match ReadRecord(rec)
    case None => None
    case Some(e) => Some(NewRow(e.name, e.category, e.cost, e.markup, e.stock))
  }

  /** Reading back a saved row gives the row with its sell price derived
      afresh (for a row the analytics pass can use, the row it would show);
      a row whose cost, markup or stock does not parse cannot be read back. */
  lemma DecodeToRecord(row: Row)
    ensures Decode(ToRecord(row)) ==
      if CellsParse(row) then Some(row.(sellPrice := SellPrice(row.cost.value, row.markup.value)))
      else None
    ensures Parse(row).Some? ==> Decode(ToRecord(row)) == Some(RepriceRow(row))
  {
  }

  /** The rows loading appends for a stored array: one per record, in file
      order, up to the first record that fails to read; nothing from that
      record on. */
  function LoadedRows(records: seq<Record>): (rows: seq<Row>)
    ensures |rows| <= |records|
    ensures forall j :: 0 <= j < |rows| ==> Decode(records[j]) == Some(rows[j])
    ensures |rows| < |records| ==> Decode(records[|rows|]).None?
    ensures PricesCurrent(rows)
    decreases |records|
  {
    if records == [] then []
    else match Decode(records[0])
      case None => []
      case Some(row) =>
        var rest := LoadedRows(records[1..]);
        assert forall j :: 0 < j <= |rest| ==> records[j] == records[1..][j - 1];
        [row] + rest
  }

  /** The rows loading appends come through the analytics pass unchanged:
      their prices are already current. */
  lemma LoadedRowsCurrent(records: seq<Record>)
    ensures Repriced(LoadedRows(records)) == LoadedRows(records)
  {
  }

  /** Every record of the array reads. */
  predicate LoadsCompletely(records: seq<Record>)
  {
    forall j :: 0 <= j < |records| ==> Decode(records[j]).Some?
  }

  /** Loading stops at the first bad record exactly: it loads everything when
      every record reads, and otherwise as many rows as precede the first
      bad record. */
  lemma LoadedRowsLength(records: seq<Record>, k: nat)
    requires k <= |records|
    requires forall j :: 0 <= j < k ==> Decode(records[j]).Some?
    requires k < |records| ==> Decode(records[k]).None?
    ensures |LoadedRows(records)| == k
  {
  }

  /** A record as the save button writes it: exactly the five keys, each
      holding a value that loading accepts. */
  predicate WellFormed(rec: Record)
  {
    rec.Keys == {"n", "c", "co", "m", "s"} && ReadRecord(rec).Some?
  }

  /** A well-formed record loads, and saving the row it loads as gives the
      record back. */
  lemma RecordBack(rec: Record)
    requires WellFormed(rec)
    ensures Decode(rec).Some? && ToRecord(Decode(rec).value) == rec
  {
    var back := ToRecord(Decode(rec).value);
    forall k | k in rec.Keys ensures back[k] == rec[k] {
    }
  }

  /** Load then save: an array of well-formed records loads completely, and
      saving the loaded table writes the very same array. */
  lemma LoadThenSave(records: seq<Record>)
    requires forall j :: 0 <= j < |records| ==> WellFormed(records[j])
    ensures LoadsCompletely(records)
    ensures SaveRecords(LoadedRows(records)) == records
  {
    forall j | 0 <= j < |records| ensures Decode(records[j]).Some? && ToRecord(Decode(records[j]).value) == records[j] {
      RecordBack(records[j]);
    }
    LoadedRowsLength(records, |records|);
  }

  /** Save then load into an empty table: the rows come back in order, with
      name, category, cost, markup and stock intact and the sell price
      derived afresh, up to the first row whose cost, markup or stock does
      not parse. */
  lemma SaveThenLoad(rows: seq<Row>)
    ensures var loaded := LoadedRows(SaveRecords(rows));
      && |loaded| <= |rows|
      && (forall j :: 0 <= j < |loaded| ==>
            CellsParse(rows[j])
            && loaded[j] == rows[j].(sellPrice := SellPrice(rows[j].cost.value, rows[j].markup.value)))
      && (forall j :: 0 <= j < |loaded| && Parse(rows[j]).Some? ==> loaded[j] == RepriceRow(rows[j]))
      && (|loaded| < |rows| ==> !CellsParse(rows[|loaded|]))
  {
    var records := SaveRecords(rows);
    var loaded := LoadedRows(records);
    forall j | 0 <= j < |loaded|
      ensures CellsParse(rows[j])
      ensures loaded[j] == rows[j].(sellPrice := SellPrice(rows[j].cost.value, rows[j].markup.value))
      ensures Parse(rows[j]).Some? ==> loaded[j] == RepriceRow(rows[j])
    {
      DecodeToRecord(rows[j]);
    }
    if |loaded| < |rows| {
      DecodeToRecord(rows[|loaded|]);
    }
  }

  /** When every row parses, a saved table reloads completely as the
      repriced table; if its prices were current, as the very same table. */
  lemma SaveThenLoadComplete(rows: seq<Row>)
    requires forall j :: 0 <= j < |rows| ==> Parse(rows[j]).Some?
    ensures LoadsCompletely(SaveRecords(rows))
    ensures LoadedRows(SaveRecords(rows)) == Repriced(rows)
    ensures PricesCurrent(rows) ==> LoadedRows(SaveRecords(rows)) == rows
  {
    var records := SaveRecords(rows);
    forall j | 0 <= j < |records| ensures Decode(records[j]).Some? {
      DecodeToRecord(rows[j]);
    }
    LoadedRowsLength(records, |records|);
    SaveThenLoad(rows);
  }
}
