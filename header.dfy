/** The invoice header fields: `parse_invoice_date` and `parse_invoice_number`
    (process_invoices.py:30-42). Each is a `re.search`; here each regular expression
    is given as a relation saying where it matches, and a scanner is proved to return
    the group of the leftmost match, or "" when there is none. */
module Header {
  import opened Wrappers
  import opened Text
  import opened Dates

  /** The literal `kw` occurs in `text` at position `i`. */
  predicate LiteralAt(text: string, i: nat, kw: string)
  {
    i + |kw| <= |text| && text[i..i + |kw|] == kw
  }

  /** `DATE\s+(\d{2}/\d{2}/\d{4})` matches `text` starting at `i`, its group starting at `j`. */
  ghost predicate DateMatch(text: string, i: nat, j: nat)
  {
    && LiteralAt(text, i, "DATE")
    && i + 4 < j && j + 10 <= |text|
    && (forall m :: i + 4 <= m < j ==> IsSpace(text[m]))
    && IsUsDateShape(text[j..j + 10])
  }

  /** The match `re.search` reports: the one that starts leftmost. */
  ghost predicate FirstDateMatch(text: string, i: nat, j: nat)
  {
    DateMatch(text, i, j) && forall i': nat, j': nat :: DateMatch(text, i', j') ==> i <= i'
  }

  /** Where the date group starts if the pattern matches at `i`. At a given start the
      group position is determined, because `\s` and `\d` share no character. */
  function DateGroupAt(text: string, i: nat): (r: Option<nat>)
    ensures r.Some? ==> DateMatch(text, i, r.value)
    ensures forall j: nat :: DateMatch(text, i, j) ==> r == Some(j)
  {
    if LiteralAt(text, i, "DATE") then
      var j := SkipWhile(text, i + 4, IsSpace);
      DateGroupDetermined(text, i);
      if j > i + 4 && j + 10 <= |text| && IsUsDateShape(text[j..j + 10]) then Some(j) else None
    else None
  }

  /** At a given start the date group can only begin where the whitespace ends. */
  lemma {:induction false} DateGroupDetermined(text: string, i: nat)
    requires LiteralAt(text, i, "DATE")
    ensures forall j: nat :: DateMatch(text, i, j) ==> j == SkipWhile(text, i + 4, IsSpace)
  {
    var s := SkipWhile(text, i + 4, IsSpace);
    forall j: nat | DateMatch(text, i, j)
      ensures j == s
    {
      assert IsDigit(text[j..j + 10][0]);
      assert !IsSpace(text[j]);
    }
  }

  /** At a given start the number group can only be the whole digit run after the whitespace. */
  lemma {:induction false} NumberGroupDetermined(text: string, i: nat)
    requires LiteralAt(text, i, "INVOICE")
    ensures forall j: nat, k: nat :: NumberMatch(text, i, j, k) ==>
      && j == SkipWhile(text, i + 7, IsSpace)
      && k == SkipWhile(text, j, IsDigit)
  {
    var s := SkipWhile(text, i + 7, IsSpace);
    forall j: nat, k: nat | NumberMatch(text, i, j, k)
      ensures j == s && k == SkipWhile(text, j, IsDigit)
    {
      assert !IsSpace(text[j]);
      var t := SkipWhile(text, j, IsDigit);
    }
  }

  /** The leftmost start at or after `from` at which the date pattern matches. */
  function FindDate(text: string, from: nat): (r: Option<nat>)
    ensures r.Some? ==> from <= r.value && DateGroupAt(text, r.value).Some?
    ensures forall i: nat, j: nat :: from <= i && DateMatch(text, i, j) ==> r.Some? && r.value <= i
    decreases |text| - from
  {
    if from + 4 > |text| then None
    else if DateGroupAt(text, from).Some? then Some(from)
    else FindDate(text, from + 1)
  }

  /** `parse_invoice_date`: "" when `DATE<ws>dd/dd/dddd` occurs nowhere, otherwise the
      ten characters `dd/dd/dddd` of its leftmost occurrence. */
  function ParseInvoiceDate(text: string): (r: string)
    ensures r == "" <==> forall i: nat, j: nat :: !DateMatch(text, i, j)
    ensures r != "" ==> exists i: nat, j: nat :: FirstDateMatch(text, i, j) && r == text[j..j + 10]
    ensures r == "" || IsUsDateShape(r)
  {
    match FindDate(text, 0)
    case None => ""
    case Some(i) =>
      var j := DateGroupAt(text, i).value;
      assert FirstDateMatch(text, i, j);
      text[j..j + 10]
  }

  /** `INVOICE\s+(\d+)` matches `text` starting at `i`, its group being `text[j..k]`.
      `\d+` is greedy, so the group runs to the end of the digits. */
  ghost predicate NumberMatch(text: string, i: nat, j: nat, k: nat)
  {
    && LiteralAt(text, i, "INVOICE")
    && i + 7 < j < k <= |text|
    && (forall m :: i + 7 <= m < j ==> IsSpace(text[m]))
    && (forall m :: j <= m < k ==> IsDigit(text[m]))
    && (k == |text| || !IsDigit(text[k]))
  }

  /** The match `re.search` reports: the one that starts leftmost. */
  ghost predicate FirstNumberMatch(text: string, i: nat, j: nat, k: nat)
  {
    NumberMatch(text, i, j, k) && forall i': nat, j': nat, k': nat :: NumberMatch(text, i', j', k') ==> i <= i'
  }

  /** The span of the number group if the pattern matches at `i`; it is determined by `i`. */
  function NumberGroupAt(text: string, i: nat): (r: Option<(nat, nat)>)
    ensures r.Some? ==> NumberMatch(text, i, r.value.0, r.value.1)
    ensures forall j: nat, k: nat :: NumberMatch(text, i, j, k) ==> r == Some((j, k))
  {
    if LiteralAt(text, i, "INVOICE") then
      var j := SkipWhile(text, i + 7, IsSpace);
      var k := SkipWhile(text, j, IsDigit);
      NumberGroupDetermined(text, i);
      if j > i + 7 && k > j then Some((j, k)) else None
    else None
  }

  /** The leftmost start at or after `from` at which the number pattern matches. */
  function FindNumber(text: string, from: nat): (r: Option<nat>)
    ensures r.Some? ==> from <= r.value && NumberGroupAt(text, r.value).Some?
    ensures forall i: nat, j: nat, k: nat :: from <= i && NumberMatch(text, i, j, k) ==> r.Some? && r.value <= i
    decreases |text| - from
  {
    if from + 7 > |text| then None
    else if NumberGroupAt(text, from).Some? then Some(from)
    else FindNumber(text, from + 1)
  }

  /** `parse_invoice_number`: "" when `INVOICE<ws>digits` occurs nowhere, otherwise the
      whole digit run of its leftmost occurrence, a non-empty string of digits. */
  function ParseInvoiceNumber(text: string): (r: string)
    ensures r == "" <==> forall i: nat, j: nat, k: nat :: !NumberMatch(text, i, j, k)
    ensures r != "" ==> exists i: nat, j: nat, k: nat :: FirstNumberMatch(text, i, j, k) && r == text[j..k]
    ensures forall m :: 0 <= m < |r| ==> IsDigit(r[m])
  {
    match FindNumber(text, 0)
    case None => ""
    case Some(i) =>
      var (j, k) := NumberGroupAt(text, i).value;
      assert FirstNumberMatch(text, i, j, k);
      text[j..k]
  }
}
