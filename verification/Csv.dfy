/**
  The CSV export (`generate_csv_string`) at the level of rows of cells:
  a title row, seven label/value rows, an empty row, a second title, the
  column header, then one row per line item. `None` is written as an
  empty cell.
 */
module Csv {
  import opened Wrappers
  import opened LineItems
  import opened Invoice

  /** One cell as `csv.writer` receives it: a string, or a number. */
  datatype Cell = TextCell(text: string) | NumberCell(number: real)

  type Row = seq<Cell>

  /** What `csv.writer` writes for `None`. */
  const EmptyCell := TextCell("")

  const HeaderTitle := "--- INVOICE HEADER DETAILS ---"
  const ItemsTitle := "--- LINE ITEMS ---"
  const HeaderLabels: seq<string> :=
    ["Invoice ID", "Vendor Name", "Invoice Number", "Date", "GST Number", "Tax Amount", "Total Amount"]
  const ItemColumns: Row :=
    [TextCell("Description"), TextCell("Quantity"), TextCell("Unit Price"), TextCell("Line Total")]

  function TextOrEmpty(v: Option<string>): Cell
  {
    match v
    case None => EmptyCell
    case Some(s) => TextCell(s)
  }

  function NumberOrEmpty(v: Option<real>): Cell
  {
    match v
    case None => EmptyCell
    case Some(x) => NumberCell(x)
  }

  /** The values of the seven header rows, in label order. */
  function HeaderValues(inv: ParsedInvoice): seq<Cell>
  {
    [ TextCell(inv.invoiceId), TextOrEmpty(inv.vendorName), TextOrEmpty(inv.invoiceNumber),
      TextOrEmpty(inv.date), TextOrEmpty(inv.gstNumber),
      NumberOrEmpty(inv.taxAmount), NumberOrEmpty(inv.totalAmount) ]
  }

  function ItemRow(item: LineItem): Row
  {
    [TextCell(item.description), NumberCell(item.quantity),
     NumberOrEmpty(item.unitPrice), NumberOrEmpty(item.lineTotal)]
  }

  function ItemRows(items: seq<LineItem>): (rows: seq<Row>)
    ensures |rows| == |items|
    ensures forall k :: 0 <= k < |items| ==> rows[k] == ItemRow(items[k])
  {
    seq(|items|, k requires 0 <= k < |items| => ItemRow(items[k]))
  }

  /** The eleven rows that precede the items. */
  function HeaderRows(inv: ParsedInvoice): seq<Row>
  {
    var v := HeaderValues(inv);
    [ [TextCell(HeaderTitle)],
      [TextCell(HeaderLabels[0]), v[0]],
      [TextCell(HeaderLabels[1]), v[1]],
      [TextCell(HeaderLabels[2]), v[2]],
      [TextCell(HeaderLabels[3]), v[3]],
      [TextCell(HeaderLabels[4]), v[4]],
      [TextCell(HeaderLabels[5]), v[5]],
      [TextCell(HeaderLabels[6]), v[6]],
      [],
      [TextCell(ItemsTitle)],
      ItemColumns ]
  }

  /** `generate_csv_string(invoice)`, before the rows are turned into text. */
  function CsvRows(inv: ParsedInvoice): (rows: seq<Row>)
    ensures |rows| == 11 + |inv.lineItems|
    ensures IsLayout(rows)
    ensures forall k :: 0 <= k < |inv.lineItems| ==> rows[11 + k] == ItemRow(inv.lineItems[k])
  {
    HeaderRows(inv) + ItemRows(inv.lineItems)
  }

  /** Reading an optional text back: an empty cell is `None`. */
  function ReadText(c: Cell): Option<Option<string>>
  {
    match c
    case TextCell(s) => if s == "" then Some(None) else Some(Some(s))
    case NumberCell(_) => None
  }

  /** Reading an optional amount back: an empty cell is `None`. */
  function ReadNumber(c: Cell): Option<Option<real>>
  {
    match c
    case TextCell(s) => if s == "" then Some(None) else None
    case NumberCell(x) => Some(Some(x))
  }

  function ReadItem(row: Row): Option<LineItem>
  {
    if |row| != 4 || !row[0].TextCell? || !row[1].NumberCell? then None
    else match (ReadNumber(row[2]), ReadNumber(row[3]))
      case (Some(unitPrice), Some(lineTotal)) =>
        Some(LineItem(row[1].number, row[0].text, unitPrice, lineTotal))
      case _ => None
  }

  function ReadItems(rows: seq<Row>): Option<seq<LineItem>>
  {
    if |rows| == 0 then Some([])
    else match (ReadItem(rows[0]), ReadItems(rows[1..]))
      case (Some(item), Some(rest)) => Some([item] + rest)
      case _ => None
  }

  predicate IsHeaderRow(row: Row, name: string)
  {
    |row| == 2 && row[0] == TextCell(name)
  }

  /** The fixed rows of an export: both titles, the seven labels, the separator and the column header. */
  predicate IsLayout(rows: seq<Row>)
  {
    && |rows| >= 11
    && rows[0] == [TextCell(HeaderTitle)]
    && IsHeaderRow(rows[1], HeaderLabels[0]) && IsHeaderRow(rows[2], HeaderLabels[1])
    && IsHeaderRow(rows[3], HeaderLabels[2]) && IsHeaderRow(rows[4], HeaderLabels[3])
    && IsHeaderRow(rows[5], HeaderLabels[4]) && IsHeaderRow(rows[6], HeaderLabels[5])
    && IsHeaderRow(rows[7], HeaderLabels[6])
    && rows[8] == [] && rows[9] == [TextCell(ItemsTitle)] && rows[10] == ItemColumns
  }

  /**
    Reads an export back into an invoice. The raw text is not exported, so
    it comes back empty.
   */
  function ReadCsv(rows: seq<Row>): Option<ParsedInvoice>
  {
    if !IsLayout(rows) || !rows[1][1].TextCell? then None
    else
      (match (ReadText(rows[2][1]), ReadText(rows[3][1]), ReadText(rows[4][1]), ReadText(rows[5][1]),
              ReadNumber(rows[6][1]), ReadNumber(rows[7][1]), ReadItems(rows[11..]))
       case (Some(vendor), Some(number), Some(date), Some(gst), Some(tax), Some(total), Some(items)) =>
         Some(ParsedInvoice(rows[1][1].text, vendor, number, date, total, tax, gst, items, ""))
       case _ => None)
  }

  /** No optional text field holds the empty string, which the export cannot tell from `None`. */
  predicate NoEmptyText(inv: ParsedInvoice)
  {
    && inv.vendorName != Some("") && inv.invoiceNumber != Some("")
    && inv.date != Some("") && inv.gstNumber != Some("")
  }

  lemma {:induction false} ReadItemRows(items: seq<LineItem>)
    ensures ReadItems(ItemRows(items)) == Some(items)
    decreases |items|
  {
    if |items| > 0 {
      ReadItemRows(items[1..]);
      assert ItemRows(items)[1..] == ItemRows(items[1..]);
      assert [items[0]] + items[1..] == items;
    }
  }

  /** The value cell of each header row holds the matching field. */
  lemma HeaderCellsOf(inv: ParsedInvoice)
    ensures CsvRows(inv)[1][1] == TextCell(inv.invoiceId)
    ensures CsvRows(inv)[2][1] == TextOrEmpty(inv.vendorName)
    ensures CsvRows(inv)[3][1] == TextOrEmpty(inv.invoiceNumber)
    ensures CsvRows(inv)[4][1] == TextOrEmpty(inv.date)
    ensures CsvRows(inv)[5][1] == TextOrEmpty(inv.gstNumber)
    ensures CsvRows(inv)[6][1] == NumberOrEmpty(inv.taxAmount)
    ensures CsvRows(inv)[7][1] == NumberOrEmpty(inv.totalAmount)
    ensures CsvRows(inv)[11..] == ItemRows(inv.lineItems)
  {
    assert CsvRows(inv)[..11] == HeaderRows(inv);
  }

  /**
    The export loses nothing but the raw text: reading it back gives the
    invoice, as long as no optional text is the empty string.
   */
  lemma CsvRoundTrip(inv: ParsedInvoice)
    requires NoEmptyText(inv)
    ensures ReadCsv(CsvRows(inv)) == Some(inv.(rawText := ""))
  {
    HeaderCellsOf(inv);
    ReadItemRows(inv.lineItems);
  }

  /** An empty vendor name and a missing one give the same export. */
  lemma EmptyTextIsMissing(inv: ParsedInvoice)
    ensures CsvRows(inv.(vendorName := Some(""))) == CsvRows(inv.(vendorName := None))
  {
  }
}
