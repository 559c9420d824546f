/** `create_price_tracking` (process_invoices.py:166-186): one price row per item of
    every invoice, the dates parsed as `MM/DD/YYYY`, and the whole table sorted by
    item name and then by date. */
module PriceTracking {
  import opened Wrappers
  import opened Text
  import opened Sequences
  import opened Dates
  import opened LineItems

  /** What `process_single_invoice` returns for one file. */
  datatype Invoice = Invoice(fileName: string, invoiceNumber: string, date: string,
                             items: seq<LineItem>)

  /** One entry of `price_data`, before its date is parsed. */
  datatype PriceRow = PriceRow(date: string, itemName: string, price: real, invoiceNumber: string)

  /** One row of the price tracking table, with its date parsed. */
  datatype PriceRecord = PriceRecord(date: Date, itemName: string, price: real, invoiceNumber: string)

  /** Why building the table raises: `price_data` is empty, so the frame has no
      `date` column, or the date of row `row` is not a `MM/DD/YYYY` date. */
  datatype TrackingError = NoRows | BadDate(row: nat)

  // ---------------------------------------------------------------------------
  // Flattening

  /** The row for `item` of invoice `inv`. */
  function RowOf(inv: Invoice, item: LineItem): PriceRow
  {
    PriceRow(inv.date, item.description, item.rate, inv.invoiceNumber)
  }

  /** The rows of one invoice, one per item, in item order. */
  function RowsOf(inv: Invoice): seq<PriceRow>
  {
    seq(|inv.items|, k requires 0 <= k < |inv.items| => RowOf(inv, inv.items[k]))
  }

  /** The rows of all invoices, invoice by invoice. */
  function Rows(invoices: seq<Invoice>): seq<PriceRow>
  {
    if invoices == [] then []
    else Rows(invoices[..|invoices| - 1]) + RowsOf(invoices[|invoices| - 1])
  }

  /** How many items the invoices hold together. */
  function ItemCount(invoices: seq<Invoice>): nat
  {
    if invoices == [] then 0
    else ItemCount(invoices[..|invoices| - 1]) + |invoices[|invoices| - 1].items|
  }

  /** Where the rows of invoice `i` start. */
  function Offset(invoices: seq<Invoice>, i: nat): nat
    requires i <= |invoices|
  {
    ItemCount(invoices[..i])
  }

  /** The nested loops that fill `price_data`. */
  method CollectPriceRows(invoices: seq<Invoice>) returns (rows: seq<PriceRow>)
    ensures rows == Rows(invoices)
  {
    rows := [];
    for i := 0 to |invoices|
      invariant rows == Rows(invoices[..i])
    {
      var invoice := invoices[i];
      for k := 0 to |invoice.items|
        invariant rows == Rows(invoices[..i]) + RowsOf(invoice)[..k]
      {
        rows := rows + [RowOf(invoice, invoice.items[k])];
        assert RowsOf(invoice)[..k + 1] == RowsOf(invoice)[..k] + [RowOf(invoice, invoice.items[k])];
      }
      assert invoices[..i + 1][..i] == invoices[..i];
      assert RowsOf(invoice)[..|invoice.items|] == RowsOf(invoice);
    }
    assert invoices[..|invoices|] == invoices;
  }

  /** The rows of two runs of invoices are the rows of each, one after the other, ... */
  lemma {:induction false} RowsConcat(a: seq<Invoice>, b: seq<Invoice>)
    ensures Rows(a + b) == Rows(a) + Rows(b)
    ensures ItemCount(a + b) == ItemCount(a) + ItemCount(b)
  {
    RowsAppend(a, b);
    CountAppend(a, b);
  }

  lemma {:induction false} RowsAppend(a: seq<Invoice>, b: seq<Invoice>)
    ensures Rows(a + b) == Rows(a) + Rows(b)
    decreases |b|
  {
    if b == [] {
      assert a + b == a;
    } else {
      var b' := b[..|b| - 1];
      var last := b[|b| - 1];
      assert (a + b)[..|a + b| - 1] == a + b';
      assert (a + b)[|a + b| - 1] == last;
      RowsAppend(a, b');
      assert Rows(a + b) == Rows(a + b') + RowsOf(last);
      assert Rows(b) == Rows(b') + RowsOf(last);
    }
  }

  /** ... and so are their item counts. */
  lemma {:induction false} CountAppend(a: seq<Invoice>, b: seq<Invoice>)
    ensures ItemCount(a + b) == ItemCount(a) + ItemCount(b)
    decreases |b|
  {
    if b == [] {
      assert a + b == a;
    } else {
      var b' := b[..|b| - 1];
      assert (a + b)[..|a + b| - 1] == a + b';
      assert (a + b)[|a + b| - 1] == b[|b| - 1];
      CountAppend(a, b');
    }
  }

  /** There are as many rows as items. */
  lemma {:induction false} RowsCount(invoices: seq<Invoice>)
    ensures |Rows(invoices)| == ItemCount(invoices)
  {
    if invoices != [] {
      RowsCount(invoices[..|invoices| - 1]);
    }
  }

  /** Item `k` of invoice `i` gives the row at `Offset(invoices, i) + k`, and that row
      carries the invoice's date and number and the item's description and rate. */
  lemma {:induction false} RowOfPair(invoices: seq<Invoice>, i: nat, k: nat)
    requires i < |invoices| && k < |invoices[i].items|
    ensures Offset(invoices, i) + k < Offset(invoices, i + 1) <= |Rows(invoices)|
    ensures Rows(invoices)[Offset(invoices, i) + k] == RowOf(invoices[i], invoices[i].items[k])
  {
    var front, rest := invoices[..i], invoices[i + 1..];
    assert invoices == front + ([invoices[i]] + rest);
    assert invoices[..i + 1] == front + [invoices[i]];
    RowsConcat(front, [invoices[i]] + rest);
    RowsConcat([invoices[i]], rest);
    RowsConcat(front, [invoices[i]]);
    RowsCount(front);
    RowsCount(invoices[..i + 1]);
    RowsCount(invoices);
    assert Rows([invoices[i]]) == RowsOf(invoices[i]) by {
      assert [invoices[i]][..0] == [];
    }
  }

  /** Every row is the row of some (invoice, item) pair ... */
  lemma {:induction false} PairOfRow(invoices: seq<Invoice>, t: nat)
    requires t < |Rows(invoices)|
    ensures exists i: nat, k: nat :: IsPair(invoices, i, k) && t == Offset(invoices, i) + k
  {
    var n := |invoices|;
    var init := invoices[..n - 1];
    RowsCount(init);
    if t < |Rows(init)| {
      PairOfRow(init, t);
      var i: nat, k: nat :| IsPair(init, i, k) && t == Offset(init, i) + k;
      assert init[..i] == invoices[..i];
      assert IsPair(invoices, i, k);
    } else {
      assert init == invoices[..n - 1];
      assert t == Offset(invoices, n - 1) + (t - |Rows(init)|);
      assert IsPair(invoices, n - 1, t - |Rows(init)|);
    }
  }

  /** ... and of only one. */
  lemma {:induction false} PairUnique(invoices: seq<Invoice>, i: nat, k: nat, i': nat, k': nat)
    requires IsPair(invoices, i, k) && IsPair(invoices, i', k')
    requires Offset(invoices, i) + k == Offset(invoices, i') + k'
    ensures i == i' && k == k'
  {
    if i < i' {
      OffsetsGrow(invoices, i, i');
    } else if i' < i {
      OffsetsGrow(invoices, i', i);
    }
  }

  /** The rows of a later invoice start after those of an earlier one end. */
  lemma {:induction false} OffsetsGrow(invoices: seq<Invoice>, i: nat, j: nat)
    requires i < j <= |invoices|
    ensures Offset(invoices, i) + |invoices[i].items| <= Offset(invoices, j)
  {
    var a, b := invoices[..i + 1], invoices[i + 1..j];
    assert invoices[..j] == a + b;
    RowsConcat(a, b);
    assert a[..i] == invoices[..i];
  }

  // ---------------------------------------------------------------------------
  // Parsing the dates

  /** The record for a row whose date parsed as `d`. */
  function RecordOf(row: PriceRow, d: Date): PriceRecord
  {
    PriceRecord(d, row.itemName, row.price, row.invoiceNumber)
  }

  /** `pd.to_datetime(df['date'], format='%m/%d/%Y')`: every row with its date parsed,
      or the first row whose date does not parse. */
  function ToRecords(rows: seq<PriceRow>): (r: Result<seq<PriceRecord>, nat>)
    ensures r.Ok? ==> |r.value| == |rows|
  {
    if rows == [] then Ok([])
    else
      var n := |rows|;
      match ToRecords(rows[..n - 1])
      case Err(k) => Err(k)
      case Ok(recs) =>
        match ParseUsDate(rows[n - 1].date)
        case None => Err(n - 1)
        case Some(d) => Ok(recs + [RecordOf(rows[n - 1], d)])
  }

  /** `recs` are `rows` with their dates parsed. */
  ghost predicate ParsedRows(rows: seq<PriceRow>, recs: seq<PriceRecord>)
  {
    |recs| == |rows| && forall k :: 0 <= k < |rows| ==>
      ParseUsDate(rows[k].date) == Some(recs[k].date) && recs[k] == RecordOf(rows[k], recs[k].date)
  }

  /** The dates parse exactly when every one of them does; the records are then the
      rows in order with their dates parsed, and otherwise the error names the first
      row whose date does not parse. */
  lemma {:induction false} ToRecordsSpec(rows: seq<PriceRow>)
    ensures ToRecords(rows).Ok? <==> forall k :: 0 <= k < |rows| ==> ParseUsDate(rows[k].date).Some?
    ensures ToRecords(rows).Ok? ==> ParsedRows(rows, ToRecords(rows).value)
    ensures ToRecords(rows).Err? ==>
      var e := ToRecords(rows).error;
      e < |rows| && ParseUsDate(rows[e].date).None?
      && forall k :: 0 <= k < e ==> ParseUsDate(rows[k].date).Some?
  {
    if ToRecords(rows).Ok? {
      ToRecordsParsed(rows);
    } else {
      ToRecordsError(rows);
    }
  }

  lemma {:induction false} ToRecordsParsed(rows: seq<PriceRow>)
    requires ToRecords(rows).Ok?
    ensures ParsedRows(rows, ToRecords(rows).value)
  {
    if rows != [] {
      var n := |rows|;
      var init := rows[..n - 1];
      ToRecordsParsed(init);
      var recs := ToRecords(init).value;
      var d := ParseUsDate(rows[n - 1].date).value;
      var recs' := recs + [RecordOf(rows[n - 1], d)];
      assert ToRecords(rows).value == recs';
      forall k | 0 <= k < n
        ensures ParseUsDate(rows[k].date) == Some(recs'[k].date) && recs'[k] == RecordOf(rows[k], recs'[k].date)
      {
        if k < n - 1 {
          assert init[k] == rows[k] && recs'[k] == recs[k];
        }
      }
    }
  }

  lemma {:induction false} ToRecordsError(rows: seq<PriceRow>)
    requires ToRecords(rows).Err?
    ensures var e := ToRecords(rows).error;
      e < |rows| && ParseUsDate(rows[e].date).None?
      && forall k :: 0 <= k < e ==> ParseUsDate(rows[k].date).Some?
  {
    var n := |rows|;
    var init := rows[..n - 1];
    if ToRecords(init).Err? {
      ToRecordsError(init);
      assert forall k :: 0 <= k < n - 1 ==> init[k] == rows[k];
    } else {
      ToRecordsParsed(init);
      assert forall k :: 0 <= k < n - 1 ==> init[k] == rows[k];
    }
  }

  // ---------------------------------------------------------------------------
  // The sort

  /** The order of `sort_values(['item_name', 'date'])`. */
  predicate RecordLe(a: PriceRecord, b: PriceRecord)
  {
    StrLt(a.itemName, b.itemName) || (a.itemName == b.itemName && DateLe(a.date, b.date))
  }

  lemma {:induction false} RecordLeTotalPreorder()
    ensures TotalPreorder(RecordLe)
  {
    DateLeTotalPreorder();
    forall a: PriceRecord, b: PriceRecord
      ensures RecordLe(a, b) || RecordLe(b, a)
    {
      StrLeTotal(a.itemName, b.itemName);
    }
    forall a: PriceRecord, b: PriceRecord, c: PriceRecord | RecordLe(a, b) && RecordLe(b, c)
      ensures RecordLe(a, c)
    {
      StrLeReflexive(a.itemName);
      StrLeReflexive(b.itemName);
      StrLeTransitive(a.itemName, b.itemName, c.itemName);
      if a.itemName == c.itemName {
        StrLeAntisymmetric(a.itemName, b.itemName);
      }
    }
  }

  /** `create_price_tracking(invoices)`: the sorted table, or why pandas raises. */
  function PriceTracking(invoices: seq<Invoice>): (r: Result<seq<PriceRecord>, TrackingError>)
    ensures r.Ok? ==> SortedBy(r.value, RecordLe)
  {
    var rows := Rows(invoices);
    if rows == [] then Err(NoRows)
    else match ToRecords(rows)
      case Err(k) => Err(BadDate(k))
      case Ok(recs) =>
        RecordLeTotalPreorder();
        var table := Sort(recs, RecordLe);
        Ok(table)
  }

  /** `create_price_tracking` as the source writes it. */
  method CreatePriceTracking(invoices: seq<Invoice>) returns (r: Result<seq<PriceRecord>, TrackingError>)
    ensures r == PriceTracking(invoices)
  {
    var rows := CollectPriceRows(invoices);
    if |rows| == 0 {
      return Err(NoRows);
    }
    var parsed := ToRecords(rows);
    match parsed
    case Err(k) =>
      r := Err(BadDate(k));
    case Ok(recs) =>
      RecordLeTotalPreorder();
      r := Ok(Sort(recs, RecordLe));
  }

  /** The table fails exactly when there are no items, or when an invoice with items
      has a date that is not `MM/DD/YYYY`. */
  lemma {:induction false} PriceTrackingFails(invoices: seq<Invoice>)
    ensures PriceTracking(invoices) == Err(NoRows) <==> ItemCount(invoices) == 0
    ensures PriceTracking(invoices).Err? <==>
      ItemCount(invoices) == 0 ||
      exists i :: 0 <= i < |invoices| && |invoices[i].items| > 0 && ParseUsDate(invoices[i].date).None?
  {
    RowsCount(invoices);
    if Rows(invoices) != [] {
      if exists i :: 0 <= i < |invoices| && |invoices[i].items| > 0 && ParseUsDate(invoices[i].date).None? {
        var i :| 0 <= i < |invoices| && |invoices[i].items| > 0 && ParseUsDate(invoices[i].date).None?;
        BadInvoiceDate(invoices, i);
      }
      if ToRecords(Rows(invoices)).Err? {
        BadRowDate(invoices);
      }
    }
  }

  /** An invoice with items whose date does not parse makes the dates fail to parse. */
  lemma {:induction false} BadInvoiceDate(invoices: seq<Invoice>, i: nat)
    requires i < |invoices| && |invoices[i].items| > 0 && ParseUsDate(invoices[i].date).None?
    ensures ToRecords(Rows(invoices)).Err?
  {
    RowOfPair(invoices, i, 0);
    ToRecordsSpec(Rows(invoices));
  }

  /** A row whose date does not parse comes from an invoice with items whose date does
      not parse. */
  lemma {:induction false} BadRowDate(invoices: seq<Invoice>)
    requires ToRecords(Rows(invoices)).Err?
    ensures exists i :: 0 <= i < |invoices| && |invoices[i].items| > 0 && ParseUsDate(invoices[i].date).None?
  {
    var rows := Rows(invoices);
    ToRecordsSpec(rows);
    var t := ToRecords(rows).error;
    PairOfRow(invoices, t);
    var i: nat, k: nat :| IsPair(invoices, i, k) && t == Offset(invoices, i) + k;
    RowOfPair(invoices, i, k);
    assert rows[t].date == invoices[i].date;
  }

  /** A successful table has one record per (invoice, item) pair: the record of item
      `k` of invoice `i` carries the item's description and rate, the invoice's
      number, and the invoice's date, which formats back to the invoice's text. */
  lemma {:induction false} PriceTrackingRecords(invoices: seq<Invoice>)
    requires PriceTracking(invoices).Ok?
    ensures |PriceTracking(invoices).value| == ItemCount(invoices)
    ensures forall x :: x in PriceTracking(invoices).value ==>
      exists i: nat, k: nat :: IsPair(invoices, i, k) && IsRecordOf(x, invoices[i], k)
    ensures forall i: nat, k: nat :: IsPair(invoices, i, k) ==>
      exists x :: x in PriceTracking(invoices).value && IsRecordOf(x, invoices[i], k)
  {
    var table := PriceTracking(invoices).value;
    TableIsRecords(invoices);
    forall x | x in table
      ensures exists i: nat, k: nat :: IsPair(invoices, i, k) && IsRecordOf(x, invoices[i], k)
    {
      PairOfRecord(invoices, x);
    }
    forall i: nat, k: nat | IsPair(invoices, i, k)
      ensures exists x :: x in table && IsRecordOf(x, invoices[i], k)
    {
      RecordOfPair(invoices, i, k);
    }
  }

  /** A successful table is a permutation of the rows with their dates parsed. */
  lemma {:induction false} TableIsRecords(invoices: seq<Invoice>)
    requires PriceTracking(invoices).Ok?
    ensures ToRecords(Rows(invoices)).Ok?
    ensures ParsedRows(Rows(invoices), ToRecords(Rows(invoices)).value)
    ensures multiset(PriceTracking(invoices).value) == multiset(ToRecords(Rows(invoices)).value)
    ensures |PriceTracking(invoices).value| == |Rows(invoices)| == ItemCount(invoices)
  {
    var recs := ToRecords(Rows(invoices)).value;
    var table := PriceTracking(invoices).value;
    ToRecordsSpec(Rows(invoices));
    RecordLeTotalPreorder();
    assert table == Sort(recs, RecordLe);
    RowsCount(invoices);
    assert |table| == |multiset(table)| == |multiset(recs)| == |recs|;
  }

  lemma {:induction false} PairOfRecord(invoices: seq<Invoice>, x: PriceRecord)
    requires PriceTracking(invoices).Ok? && x in PriceTracking(invoices).value
    ensures exists i: nat, k: nat :: IsPair(invoices, i, k) && IsRecordOf(x, invoices[i], k)
  {
    TableIsRecords(invoices);
    var recs := ToRecords(Rows(invoices)).value;
    assert x in multiset(PriceTracking(invoices).value);
    var t :| 0 <= t < |recs| && recs[t] == x;
    RecordAt(invoices, recs, t);
  }

  lemma {:induction false} RecordOfPair(invoices: seq<Invoice>, i: nat, k: nat)
    requires PriceTracking(invoices).Ok? && IsPair(invoices, i, k)
    ensures exists x :: x in PriceTracking(invoices).value && IsRecordOf(x, invoices[i], k)
  {
    TableIsRecords(invoices);
    var recs := ToRecords(Rows(invoices)).value;
    var t := PairRecord(invoices, recs, i, k);
    assert recs[t] in multiset(PriceTracking(invoices).value);
  }

  /** Record `t` of the parsed rows is the record of some (invoice, item) pair. */
  lemma {:induction false} RecordAt(invoices: seq<Invoice>, recs: seq<PriceRecord>, t: nat)
    requires ParsedRows(Rows(invoices), recs) && t < |recs|
    ensures exists i: nat, k: nat :: IsPair(invoices, i, k) && IsRecordOf(recs[t], invoices[i], k)
  {
    var rows := Rows(invoices);
    PairOfRow(invoices, t);
    var i: nat, k: nat :| IsPair(invoices, i, k) && t == Offset(invoices, i) + k;
    RowOfPair(invoices, i, k);
    RecordFromPair(invoices[i], k, rows[t], recs[t]);
  }

  /** The parsed rows hold the record of every (invoice, item) pair, at index `t`. */
  lemma {:induction false} PairRecord(invoices: seq<Invoice>, recs: seq<PriceRecord>, i: nat, k: nat) returns (t: nat)
    requires ParsedRows(Rows(invoices), recs) && IsPair(invoices, i, k)
    ensures t < |recs| && IsRecordOf(recs[t], invoices[i], k)
  {
    var rows := Rows(invoices);
    RowOfPair(invoices, i, k);
    t := Offset(invoices, i) + k;
    assert ParseUsDate(rows[t].date) == Some(recs[t].date) && recs[t] == RecordOf(rows[t], recs[t].date);
    RecordFromPair(invoices[i], k, rows[t], recs[t]);
  }

  /** The parsed record of the row of item `k` of `inv` is that item's record. */
  lemma {:induction false} RecordFromPair(inv: Invoice, k: nat, row: PriceRow, x: PriceRecord)
    requires k < |inv.items| && row == RowOf(inv, inv.items[k])
    requires ParseUsDate(row.date) == Some(x.date) && x == RecordOf(row, x.date)
    ensures IsRecordOf(x, inv, k)
  {
    ParseUsDateSound(row.date);
  }

  /** Invoice `i` has an item `k`. */
  predicate IsPair(invoices: seq<Invoice>, i: nat, k: nat)
  {
    i < |invoices| && k < |invoices[i].items|
  }

  /** `x` is the record of item `k` of `inv`. */
  ghost predicate IsRecordOf(x: PriceRecord, inv: Invoice, k: nat)
    requires k < |inv.items|
  {
    && x.itemName == inv.items[k].description
    && x.price == inv.items[k].rate
    && x.invoiceNumber == inv.invoiceNumber
    && FormatUsDate(x.date) == inv.date
  }
}
