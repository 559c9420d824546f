/** `process_single_invoice` and `process_all_invoices` (process_invoices.py:87-116):
    every `*.pdf` entry of the invoice directory, in name order, read into an invoice,
    where a file whose processing raises is skipped. */
module Processor {
  import opened Wrappers
  import opened Text
  import opened Sequences
  import opened Dates
  import opened Header
  import opened LineItems
  import opened PriceTracking

  /** An entry of the invoice directory: its name, and the text `extract_text_from_pdf`
      gives for it, or `None` when that raises. */
  datatype PdfFile = PdfFile(name: string, text: Option<string>)

  /** `glob("*.pdf")`: the name ends in `.pdf`. */
  predicate IsPdf(f: PdfFile)
  {
    |f.name| >= 4 && f.name[|f.name| - 4..] == ".pdf"
  }

  /** The order of `pdf_files.sort()` on paths of one directory: by name. */
  predicate NameLe(a: PdfFile, b: PdfFile)
  {
    StrLe(a.name, b.name)
  }

  lemma {:induction false} NameLeTotalPreorder()
    ensures TotalPreorder(NameLe)
  {
    forall a: PdfFile, b: PdfFile
      ensures NameLe(a, b) || NameLe(b, a)
    {
      StrLeTotal(a.name, b.name);
    }
    forall a: PdfFile, b: PdfFile, c: PdfFile | NameLe(a, b) && NameLe(b, c)
      ensures NameLe(a, c)
    {
      StrLeTransitive(a.name, b.name, c.name);
    }
  }

  /** The files the loop visits: the `.pdf` entries of the directory, in name order. */
  function PdfFiles(files: seq<PdfFile>): (r: seq<PdfFile>)
    ensures SortedBy(r, NameLe)
    ensures forall f :: f in r <==> f in files && IsPdf(f)
    ensures multiset(r) == multiset(Filter(files, IsPdf))
  {
    NameLeTotalPreorder();
    var r := Sort(Filter(files, IsPdf), NameLe);
    assert forall f :: f in r <==> f in multiset(r);
    r
  }

  /** `process_single_invoice(pdf_path)`: the invoice read from one file, or `None`
      when extracting the text or converting an item's numbers raises. */
  function ProcessSingleInvoice(f: PdfFile): Option<Invoice>
  {
    match f.text
    case None => None
    case Some(text) =>
      match ItemsOf(text)
      case Err(_) => None
      case Ok(items) => Some(Invoice(f.name, ParseInvoiceNumber(text), ParseInvoiceDate(text), items))
  }

  /** Some line of the item section of `text` has a quantity `int` rejects or a rate
      or an amount `float` rejects. */
  ghost predicate ConversionRaises(text: string)
  {
    var outs := Outcomes(KindsOf(SplitLines(text)), ReadItemLine);
    exists k :: 0 <= k < |outs| && outs[k].BadNumber?
  }

  /** A file gives no invoice exactly when its text cannot be extracted or some line of
      its item section has a number `int` or `float` rejects; an invoice it gives
      carries the file's name, a number of digits, a date that is empty or has the
      `MM/DD/YYYY` shape, and at most one item per line of text. */
  lemma {:induction false} ProcessSingleInvoiceSpec(f: PdfFile)
    ensures ProcessSingleInvoice(f).None? <==> f.text.None? || ConversionRaises(f.text.value)
    ensures ProcessSingleInvoice(f).Some? ==>
      var inv, text := ProcessSingleInvoice(f).value, f.text.value;
      && inv.fileName == f.name
      && (forall m :: 0 <= m < |inv.invoiceNumber| ==> IsDigit(inv.invoiceNumber[m]))
      && (inv.date == "" || IsUsDateShape(inv.date))
      && |inv.items| <= |SplitLines(text)|
  {
    if f.text.Some? {
      var text := f.text.value;
      var outs := Outcomes(KindsOf(SplitLines(text)), ReadItemLine);
      CollectErr(outs, |outs|);
      assert ItemsOf(text) == Collect(outs, |outs|);
      assert ProcessSingleInvoice(f).None? <==> ItemsOf(text).Err?;
      assert ConversionRaises(text) <==> ItemsOf(text).Err?;
      if ItemsOf(text).Ok? {
        ItemsBound(text);
      }
    }
  }

  /** The invoices of the first `n` files, in order, skipping the files that give none. */
  function Processed(pdfs: seq<PdfFile>, n: nat, process: PdfFile -> Option<Invoice>): seq<Invoice>
    requires n <= |pdfs|
  {
    if n == 0 then []
    else
      match process(pdfs[n - 1])
      case None => Processed(pdfs, n - 1, process)
      case Some(inv) => Processed(pdfs, n - 1, process) + [inv]
  }

  /** `process_all_invoices()`: the invoices of the directory's `.pdf` files. */
  function AllInvoices(files: seq<PdfFile>): seq<Invoice>
  {
    var pdfs := PdfFiles(files);
    Processed(pdfs, |pdfs|, ProcessSingleInvoice)
  }

  /** `process_all_invoices` as the source writes it. */
  method ProcessAllInvoices(files: seq<PdfFile>) returns (invoices: seq<Invoice>)
    ensures invoices == AllInvoices(files)
  {
    var pdfs := PdfFiles(files);
    invoices := CollectInvoices(pdfs, ProcessSingleInvoice);
  }

  /** The loop of `process_all_invoices`, where `process` is `process_single_invoice`
      and `None` is the exception the loop catches. */
  method CollectInvoices(pdfs: seq<PdfFile>, process: PdfFile -> Option<Invoice>)
    returns (invoices: seq<Invoice>)
    ensures invoices == Processed(pdfs, |pdfs|, process)
  {
    invoices := [];
    for i := 0 to |pdfs|
      invariant invoices == Processed(pdfs, i, process)
    {
      match process(pdfs[i])
      case None =>
      case Some(inv) =>
        invoices := invoices + [inv];
    }
  }

  /** The positions of the files that give an invoice. */
  function Succeeds(pdfs: seq<PdfFile>, process: PdfFile -> Option<Invoice>): nat -> bool
  {
    (i: nat) => i < |pdfs| && process(pdfs[i]).Some?
  }

  /** The invoices are those of the files that give one, one each, in file order: the
      files that fail are skipped and nothing else is. */
  lemma {:induction false} ProcessedAt(pdfs: seq<PdfFile>, n: nat, process: PdfFile -> Option<Invoice>)
    requires n <= |pdfs|
    ensures var r, idx := Processed(pdfs, n, process), Indices(n, Succeeds(pdfs, process));
      |r| == |idx| && forall t :: 0 <= t < |idx| ==> Some(r[t]) == process(pdfs[idx[t]])
  {
    if n > 0 {
      ProcessedAt(pdfs, n - 1, process);
      var r, idx := Processed(pdfs, n, process), Indices(n, Succeeds(pdfs, process));
      var prior, idx' := Processed(pdfs, n - 1, process), Indices(n - 1, Succeeds(pdfs, process));
      if process(pdfs[n - 1]).Some? {
        assert r == prior + [process(pdfs[n - 1]).value];
        assert idx == idx' + [n - 1];
        forall t | 0 <= t < |idx|
          ensures Some(r[t]) == process(pdfs[idx[t]])
        {
          if t < |idx'| {
            assert r[t] == prior[t] && idx[t] == idx'[t];
          }
        }
      } else {
        assert r == prior && idx == idx';
      }
    }
  }

  /** Every invoice is that of one of the files, and every file that gives an invoice
      has its invoice among them. */
  lemma {:induction false} ProcessedMembers(pdfs: seq<PdfFile>, n: nat, process: PdfFile -> Option<Invoice>)
    requires n <= |pdfs|
    ensures forall x :: x in Processed(pdfs, n, process) ==>
      exists i :: 0 <= i < n && process(pdfs[i]) == Some(x)
    ensures forall i :: 0 <= i < n && process(pdfs[i]).Some? ==>
      process(pdfs[i]).value in Processed(pdfs, n, process)
  {
    if n > 0 {
      ProcessedMembers(pdfs, n - 1, process);
      var r, prior := Processed(pdfs, n, process), Processed(pdfs, n - 1, process);
      var last := process(pdfs[n - 1]);
      assert r == prior + (if last.Some? then [last.value] else []);
      forall x | x in r
        ensures exists i :: 0 <= i < n && process(pdfs[i]) == Some(x)
      {
        if x !in prior {
          assert process(pdfs[n - 1]) == Some(x);
        }
      }
    }
  }

  /** The invoices come in the order of their file names. */
  lemma {:induction false} InvoicesSorted(files: seq<PdfFile>)
    ensures var r := AllInvoices(files);
      forall a, b :: 0 <= a < b < |r| ==> StrLe(r[a].fileName, r[b].fileName)
  {
    var pdfs := PdfFiles(files);
    var r := AllInvoices(files);
    var idx := Indices(|pdfs|, Succeeds(pdfs, ProcessSingleInvoice));
    ProcessedAt(pdfs, |pdfs|, ProcessSingleInvoice);
    IndicesIncreasing(|pdfs|, Succeeds(pdfs, ProcessSingleInvoice));
    forall a, b | 0 <= a < b < |r|
      ensures StrLe(r[a].fileName, r[b].fileName)
    {
      var i, j := idx[a], idx[b];
      assert NameLe(pdfs[i], pdfs[j]);
    }
  }

  /** The invoices are exactly those of the directory's `.pdf` files that give one. */
  lemma {:induction false} InvoicesOfFiles(files: seq<PdfFile>)
    ensures forall x :: x in AllInvoices(files) ==>
      exists f :: f in files && IsPdf(f) && ProcessSingleInvoice(f) == Some(x)
    ensures forall f :: f in files && IsPdf(f) && ProcessSingleInvoice(f).Some? ==>
      ProcessSingleInvoice(f).value in AllInvoices(files)
  {
    var pdfs := PdfFiles(files);
    ProcessedMembers(pdfs, |pdfs|, ProcessSingleInvoice);
    forall x | x in AllInvoices(files)
      ensures exists f :: f in files && IsPdf(f) && ProcessSingleInvoice(f) == Some(x)
    {
      var i :| 0 <= i < |pdfs| && ProcessSingleInvoice(pdfs[i]) == Some(x);
      assert pdfs[i] in pdfs;
    }
    forall f | f in files && IsPdf(f) && ProcessSingleInvoice(f).Some?
      ensures ProcessSingleInvoice(f).value in AllInvoices(files)
    {
      var i :| 0 <= i < |pdfs| && pdfs[i] == f;
    }
  }
}
