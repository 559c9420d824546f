# Invoice price tracking, modelled in Dafny

This project models the core of `process_invoices.py`. That script turns a directory
of supplier invoices into a price history and a list of price changes. The model
covers these steps:

- **Header fields.** `parse_invoice_date` finds the first `DATE<ws>MM/DD/YYYY`.
  `parse_invoice_number` finds the first `INVOICE<ws>digits`. Each is a scanner
  proved equal to a relational description of its regular expression, with
  leftmost-match semantics (module `Header`).
- **Item table.** `parse_line_items` is a two-state machine over the lines of the
  text. A line naming `DESCRIPTION`, `QTY` and `RATE` opens the item section. A line
  naming `VERIFIED`, `TOTAL DUE` or `PAYMENT` closes it. Each non-blank line inside
  is matched against `^(.+?)\s+(\d+)\s+([\d.]+)\s+([\d.]+)$`. The regex is a
  relation, and a right-to-left scanner is proved to report the match Python's
  engine reports: the one with the shortest group 1. Which tokens `int` and
  `float` accept is modelled exactly, including CPython's 4300-digit limit on
  `int`; the values are exact integers and reals (see "Left out"). A conversion
  that raises makes the whole call raise (module `LineItems`).
- **Price history.** `create_price_tracking` flattens every (invoice, item) pair
  into a row. It parses the dates with `format='%m/%d/%Y'`, including the
  calendar and the range a nanosecond pandas `Timestamp` can hold, and sorts by
  item name and then date (modules `PriceTracking`, `Dates`).
- **Price changes.** `analyze_price_changes` visits each distinct item in order of
  first appearance, re-sorts the item's rows by date, and emits one event per
  neighbouring pair whose prices differ (module `PriceChanges`).
- **Batch.** `process_single_invoice` and `process_all_invoices` visit the `*.pdf`
  entries in name order and skip a file whose processing raises (module
  `Processor`).

Shared pieces live in their own modules:

- `Wrappers`: `Option` and `Result`.
- `Text`: `str.isspace`, `strip`, `in`, `split('\n')`, string order, digit strings.
- `Sequences`: sorting, filtering, `unique`, positions.

## Modelling choices

- The loops of the source are methods proved against specification functions:
  - `LineItems.ScanLines` for the loop of `parse_line_items`;
  - `PriceTracking.CollectPriceRows` for the nested loops of `create_price_tracking`;
  - `PriceChanges.AnalyzePriceChanges` and `PriceChanges.AppendItemChanges` for
    the two loops of `analyze_price_changes`;
  - `Processor.CollectInvoices` for the loop of `process_all_invoices`.
- The regex searches are pure functions, proved equal to the relations.
- Prices are exact reals. `float` on `[0-9.]+` succeeds exactly when the token has
  at least one digit and at most one point. Its value is the decimal the token
  writes.
- An exception is an error value:
  - `Err(k)` from `ItemsOf` names the first line whose `int` or `float` raised;
  - `TrackingError.NoRows` is an empty `price_data`, whose frame has no `date`
    column, so `df['date']` raises;
  - `TrackingError.BadDate(k)` names the first row whose date does not parse;
  - `None` from `ProcessSingleInvoice` is the exception that
    `process_all_invoices` catches.
- A directory entry is the pair (name, extracted text). The text is `None` when
  `extract_text_from_pdf` raises.
- The loops of `parse_line_items` and `process_all_invoices` take the per-line
  (per-file) work as a function parameter (`read`, `process`). The top-level
  methods `ParseLineItems` and `ProcessAllInvoices` pass the model of that work:
  `ReadItemLine` and `ProcessSingleInvoice`.
- Behaviours of the code the model keeps:
  - A malformed date makes `pd.to_datetime` raise, so the table is not built.
    No record is dropped. (For the empty date, see "Left out".)
  - A later header line re-opens the item section. The open/close tests are
    substring tests, and the header test runs first.
  - A price change from a zero price does not crash. numpy gives an infinity,
    and the model gives `None` as its percentage.
  - `analyze_price_changes` returns nothing. The model returns the list it
    writes out.

## Model

| member | source | states |
|---|---|---|
| Text.Strip | process_invoices.py:53 | the stripped line neither starts nor ends with whitespace |
| Text.StripSpec | process_invoices.py:53 | the stripped line occurs in the line with only whitespace around it |
| Text.StripUnchanged | process_invoices.py:53 | a line without whitespace at its ends is its own strip |
| Text.ContainsIff | process_invoices.py:56-61 | the substring scan succeeds exactly when the word occurs contiguously in the line |
| Text.SplitLines | process_invoices.py:49 | at least one piece, none holding a line break |
| Text.SplitJoin | process_invoices.py:49 | joining the pieces with line breaks gives the text back |
| Text.ValueOfPadded | process_invoices.py:206-207 | the zero-padded rendering of a number that fits reads back as that number |
| Text.PaddedOfValue | process_invoices.py:180 | writing back the value of a digit string with as many digits gives the string |
| Text.StrLeTotal | process_invoices.py:181 | any two strings compare one way or the other |
| Text.StrLeTransitive | process_invoices.py:181 | the string order is transitive |
| Text.StrLeAntisymmetric | process_invoices.py:181 | strings ordered both ways are equal |
| Sequences.Sort | process_invoices.py:181 | the result is ordered and is a permutation of the input |
| Sequences.SortOfSorted | process_invoices.py:194 | sorting an ordered sequence leaves it unchanged |
| Sequences.Filter | process_invoices.py:193 | the result holds exactly the elements that pass the test, each as many times as it occurs in the input |
| Sequences.FilterSorted | process_invoices.py:193 | filtering keeps the order |
| Sequences.Distinct | process_invoices.py:192 | each element once, exactly those of the input, in order of first appearance |
| Sequences.IndicesIncreasing | process_invoices.py:197 | the positions at which a test holds are listed in increasing order |
| Sequences.IndicesComplete | process_invoices.py:197-201 | every position at which the test holds is listed |
| Dates.FormatUsDate | process_invoices.py:206-207 | `strftime('%m/%d/%Y')`; FormatShape, ParseFormatted and ParseUsDateSound state its shape and its round trip with ParseUsDate |
| Dates.FormatShape | process_invoices.py:206-207 | `strftime('%m/%d/%Y')` gives a `dd/dd/dddd` string |
| Dates.ParseUsDate | process_invoices.py:180 | `pd.to_datetime(format='%m/%d/%Y')` on one value, for the shapes an invoice date takes; ParseUsDateSound and ParseFormatted state that it accepts exactly the valid dates in that shape |
| Dates.ParseUsDateSound | process_invoices.py:180 | a date that parses is valid and formats back to the string parsed |
| Dates.ParseFormatted | process_invoices.py:206-207 | parsing a formatted valid date gives the date back |
| Dates.DateLeTotalPreorder | process_invoices.py:194 | date order is total and transitive |
| Dates.DateLeAntisymmetric | process_invoices.py:194 | dates ordered both ways are equal |
| Header.DateGroupAt | process_invoices.py:32 | at a start position the date pattern matches at most one way, and the function finds it |
| Header.FindDate | process_invoices.py:32 | the leftmost start at which the date pattern matches |
| Header.ParseInvoiceDate | process_invoices.py:30-35 | "" exactly when no match exists; otherwise the `dd/dd/dddd` group of the leftmost match |
| Header.NumberGroupAt | process_invoices.py:39 | at a start position the number pattern matches at most one way, with the whole digit run |
| Header.FindNumber | process_invoices.py:39 | the leftmost start at which the number pattern matches |
| Header.ParseInvoiceNumber | process_invoices.py:37-42 | "" exactly when no match exists; otherwise the digit group of the leftmost match, all digits |
| LineItems.MatchItemLine | process_invoices.py:70 | `re.match` with the item pattern; MatchItemLineSpec states that it reports the regex's lazy match |
| LineItems.MatchItemLineSpec | process_invoices.py:70 | the scanner returns a match exactly when the regex matches, and it is the match with the shortest group 1 |
| LineItems.ParseDecimal | process_invoices.py:75-76 | `float` on a `[\d.]+` token; a value it gives is not negative; ParseDecimalAccepts and ParseDecimalValue state what it accepts and gives |
| LineItems.ParseDecimalAccepts | process_invoices.py:75-76 | `float` accepts a `[\d.]+` token exactly when it has at least one digit and at most one point |
| LineItems.ParseDecimalValue | process_invoices.py:75-76 | the value is the integer the digits write, scaled down by ten per digit after the point |
| LineItems.ItemOf | process_invoices.py:72-83 | the conversions of a match's groups into an item; its properties are stated by ItemOfSpec |
| LineItems.ItemOfSpec | process_invoices.py:72-83 | a match gives an item exactly when group 2 has at most 4300 digits and both `float` calls succeed, otherwise the error; rate and amount are not negative |
| LineItems.ReadItemLine | process_invoices.py:70-83 | the loop body on a line inside the section; its properties are stated by ReadItemLineSpec and ItemDescription |
| LineItems.ReadItemLineSpec | process_invoices.py:70-83 | a line gives nothing exactly when the regex does not match; otherwise what the reported match's groups give |
| LineItems.ItemDescription | process_invoices.py:73 | on a stripped line the description is group 1 itself, not empty |
| LineItems.GroupOneStripped | process_invoices.py:73 | group 1 of the reported match has no whitespace at its ends |
| LineItems.ItemsOf | process_invoices.py:44-85 | `parse_line_items(text)`; SectionIff, CollectErr, CollectItems and ItemsBound state its section, error and item properties |
| LineItems.ParseLineItems | process_invoices.py:44-85 | the method computes `ItemsOf(text)` |
| LineItems.ScanLines | process_invoices.py:52-83 | the loop with its in-section flag computes the collected outcomes of the lines, stopping at the first conversion error |
| LineItems.LoopStep | process_invoices.py:53-83 | one pass: the new flag and the items after line `i`, case by case on the line |
| LineItems.SectionIff | process_invoices.py:50-63 | the loop is in the section exactly when an earlier line opened it and no line since opened or closed it |
| LineItems.HeaderBeforeTerminator | process_invoices.py:56-63 | a header line opens the section even when it also names a closing word; a closing line closes it |
| LineItems.ItemLineInSection | process_invoices.py:65-83 | a line that contributes is inside an open section, non-blank, neither header nor closing line, and contributes what the item reader gives |
| LineItems.NothingBeforeHeader | process_invoices.py:50-66 | before the first header line the loop is outside the section and no line contributes |
| LineItems.CollectErrStays | process_invoices.py:74-76 | once a conversion raises, later lines do not change the outcome |
| LineItems.CollectErr | process_invoices.py:74-76 | the outcome is an error exactly when some line's conversion raises, naming the first such line |
| LineItems.CollectItems | process_invoices.py:78-83 | the items are those of the item lines, one each, in line order |
| LineItems.ItemsBound | process_invoices.py:52-85 | at most one item per line, and none without a header line |
| PriceTracking.Rows | process_invoices.py:168-177 | `price_data`; RowsCount, RowOfPair, PairOfRow and PairUnique state that it holds one row per (invoice, item) pair |
| PriceTracking.CollectPriceRows | process_invoices.py:168-177 | the nested loops compute the rows of all invoices |
| PriceTracking.RowsCount | process_invoices.py:170-177 | there are as many rows as items |
| PriceTracking.RowOfPair | process_invoices.py:170-177 | item `k` of invoice `i` gives the row at its offset, carrying the item's and the invoice's fields |
| PriceTracking.PairOfRow | process_invoices.py:170-177 | every row comes from some (invoice, item) pair |
| PriceTracking.PairUnique | process_invoices.py:170-177 | no two pairs give the same row |
| PriceTracking.ToRecords | process_invoices.py:180 | the date conversion of the rows; a table it gives has one record per row; ToRecordsSpec states the rest |
| PriceTracking.ToRecordsSpec | process_invoices.py:180 | the dates convert exactly when all parse; then the records are the rows in order with dates parsed, else the first failing row is named |
| PriceTracking.PriceTracking | process_invoices.py:179-181 | a table that is built is sorted by item name and then date |
| PriceTracking.CreatePriceTracking | process_invoices.py:166-186 | the method computes `PriceTracking(invoices)` |
| PriceTracking.PriceTrackingFails | process_invoices.py:179-180 | the table fails exactly when there are no items or an invoice with items has an unparseable date |
| PriceTracking.PriceTrackingRecords | process_invoices.py:166-181 | one record per (invoice, item) pair, each with the item's description and rate and the invoice's number and date |
| PriceTracking.TableIsRecords | process_invoices.py:179-181 | the table is a permutation of the parsed rows |
| PriceChanges.Percentage | process_invoices.py:202 | the percentage change before rounding; PercentageSpec and PercentageSign state its value |
| PriceChanges.PercentageSpec | process_invoices.py:202 | the percentage exists exactly when the previous price is not zero, and it is the change in hundredths of that price |
| PriceChanges.PercentageSign | process_invoices.py:202 | from a positive price the percentage has the sign of the change |
| PriceChanges.ChangeAt | process_invoices.py:198-209 | the event for one pair of neighbouring rows; EventSound and ChangesSound state what it carries |
| PriceChanges.ItemChanges | process_invoices.py:196-209 | the events of one item's history; ItemChangesCount, ItemChangesAt, EventChain, LastEventPrice and Telescoping state its properties |
| PriceChanges.ItemChangesCount | process_invoices.py:196-201 | at most n-1 events for n rows, none for one row or none |
| PriceChanges.ItemChangesAt | process_invoices.py:197-212 | the events are those of the pairs whose prices differ, one each, in pair order |
| PriceChanges.EventChain | process_invoices.py:197-209 | each event starts at the price the event before it ended at |
| PriceChanges.LastEventPrice | process_invoices.py:197-209 | the last event ends at the item's last price |
| PriceChanges.Telescoping | process_invoices.py:210 | an item's changes add up to its last price minus its first |
| PriceChanges.Names | process_invoices.py:192 | exactly the names in the table, each once, in order of first appearance: some row of an earlier name precedes every row of a later one |
| PriceChanges.History | process_invoices.py:193-194 | an item's rows, a permutation of the selection, sorted by date |
| PriceChanges.HistoryOfSorted | process_invoices.py:193-194 | on a table sorted by name and date the re-sort changes nothing |
| PriceChanges.Changes | process_invoices.py:192-212 | `analyze_price_changes(price_df)`; ChangesSound states that every event lies between two rows of its item |
| PriceChanges.AnalyzePriceChanges | process_invoices.py:188-212 | the method computes `Changes(table)` |
| PriceChanges.AppendItemChanges | process_invoices.py:196-212 | the inner loop appends the events of one item's history |
| PriceChanges.ChangesSound | process_invoices.py:192-212 | every event compares two rows of the table of its item, the earlier first, with different prices, and carries their prices, change, percentage and dates |
| PriceChanges.EventSound | process_invoices.py:198-211 | event `t` of an item is the event between two of its rows |
| PriceChanges.InHistory | process_invoices.py:193 | a row of an item's history is a row of the table with that name |
| Processor.NameLeTotalPreorder | process_invoices.py:107 | the file order is total and transitive |
| Processor.PdfFiles | process_invoices.py:106-107 | exactly the `.pdf` entries, in name order |
| Processor.ProcessSingleInvoice | process_invoices.py:87-100 | `process_single_invoice`; ProcessSingleInvoiceSpec states when it gives an invoice and what the invoice holds |
| Processor.ProcessSingleInvoiceSpec | process_invoices.py:87-100 | no invoice exactly when extraction fails or an item's `int` or `float` raises; an invoice has the file's name, a digit number, an empty or `MM/DD/YYYY`-shaped date and at most one item per line |
| Processor.AllInvoices | process_invoices.py:102-116 | `process_all_invoices()`; ProcessedAt, InvoicesSorted and InvoicesOfFiles state which invoices it gives and in what order |
| Processor.ProcessAllInvoices | process_invoices.py:102-116 | the method computes `AllInvoices(files)` |
| Processor.CollectInvoices | process_invoices.py:109-116 | the loop collects the invoices of the files that succeed |
| Processor.ProcessedAt | process_invoices.py:109-116 | the invoices are those of the succeeding files, one each, in file order |
| Processor.ProcessedMembers | process_invoices.py:109-116 | every invoice comes from a file, and every succeeding file's invoice is present |
| Processor.InvoicesSorted | process_invoices.py:106-116 | the invoices come in file-name order |
| Processor.InvoicesOfFiles | process_invoices.py:106-116 | the invoices are exactly those of the `.pdf` entries that succeed |

## Left out

- `extract_text_from_pdf` (pdfplumber): the extracted text, or its failure, is part of the input.
- The CSV and console output of `create_price_tracking` and `analyze_price_changes`, and the summary prints.
- `save_items_data`, `save_individual_invoice_csvs` and `run`: file output and orchestration only.
- `generate_price_report.py`: PDF layout, the current date, and a CSV read.
- Floating point: prices and percentages are exact reals. Binary rounding of `float`, the infinity `float` gives for a digit run too large for a double, and `round(..., 2)` are not modelled.
- PriceChanges.PercentageSign: states only the sign of the percentage. Its rounded value is not modelled.
- PriceChanges.Percentage: with a zero previous price numpy gives an infinity (or NaN when both prices are zero); the model gives `None` and says nothing more.
- Unicode digits: `\d` and `int` also accept non-ASCII decimal digits; the model accepts ASCII digits only.
- Sort ties: the two-key `sort_values(['item_name', 'date'])` (process_invoices.py:181) goes through a lexsort, which is stable, as the model's insertion sort is. The one-key `sort_values('date')` (process_invoices.py:194) uses numpy's quicksort, which is not stable; the model keeps table order for rows of one item with the same date. Only the exact event list of an item with several rows on one date depends on that order.
- Dates.ParseUsDate: accepts only `dd/dd/dddd` strings naming a valid date in the range of ns-resolution Timestamps. `%m` and `%d` also accept one-digit fields such as `1/5/2024`; the model rejects them, and no invoice date has that shape (ProcessSingleInvoiceSpec).
- Dates.ParseUsDate: the empty date of an invoice without a `DATE` line. pandas turns it into `NaT`, keeps that record and sorts it last, and `analyze_price_changes` fails only when its `strftime` reaches that record in an event. The model fails when building the table instead.
- `int` digit limit: the 4300 digits are CPython's default; the `PYTHONINTMAXSTRDIGITS` setting and Python versions without the limit are not modelled.
- The error index inside `Err` and `BadDate` is the source's first failing line or row. The source raises and carries no index, so the index is extra information.
- Directory listing: the entries are an input sequence; `glob` only contributes its name test (the name ends in `.pdf`, case-sensitive). An entry that is not a readable file is one whose text extraction fails.
- Path ordering: `pdf_files.sort()` compares whole paths. In one directory that is the order of the file names, which is what the model compares.
