/** `parse_line_items` (process_invoices.py:44-85): the item table of an invoice.
    The text is split into lines; a line naming DESCRIPTION, QTY and RATE opens the
    item section, a line naming VERIFIED, TOTAL DUE or PAYMENT closes it, and each
    non-blank line inside it that matches
    `^(.+?)\s+(\d+)\s+([\d.]+)\s+([\d.]+)$` becomes one item. */
module LineItems {
  import opened Wrappers
  import opened Text
  import opened Sequences

  /** One row of the item table: description, quantity, unit rate and amount. */
  datatype LineItem = LineItem(description: string, quantity: nat, rate: real, amount: real)

  /** A character of the class `[\d.]`. */
  predicate IsRateChar(c: char)
  {
    IsDigit(c) || c == '.'
  }

  predicate NotSpace(c: char)
  {
    !IsSpace(c)
  }

  // ---------------------------------------------------------------------------
  // The item-line regular expression

  /** The spans of a match of `^(.+?)\s+(\d+)\s+([\d.]+)\s+([\d.]+)$`: group 1 is
      `line[..descEnd]`, group 2 `line[qtyStart..qtyEnd]`, group 3
      `line[rateStart..rateEnd]` and group 4 `line[amountStart..]`. */
  datatype ItemMatch = ItemMatch(descEnd: nat, qtyStart: nat, qtyEnd: nat,
                                 rateStart: nat, rateEnd: nat, amountStart: nat)

  /** The regular expression matches the whole of `line` (which holds no line break,
      so `.` matches every character of it) with the groups at the spans of `m`. */
  ghost predicate ItemRegexMatch(line: string, m: ItemMatch)
  {
    && 0 < m.descEnd < m.qtyStart < m.qtyEnd < m.rateStart < m.rateEnd < m.amountStart < |line|
    && (forall k :: m.descEnd <= k < m.qtyStart ==> IsSpace(line[k]))
    && (forall k :: m.qtyStart <= k < m.qtyEnd ==> IsDigit(line[k]))
    && (forall k :: m.qtyEnd <= k < m.rateStart ==> IsSpace(line[k]))
    && (forall k :: m.rateStart <= k < m.rateEnd ==> IsRateChar(line[k]))
    && (forall k :: m.rateEnd <= k < m.amountStart ==> IsSpace(line[k]))
    && (forall k :: m.amountStart <= k < |line| ==> IsRateChar(line[k]))
  }

  /** The match Python's engine reports: group 1 is lazy, so it is the shortest. */
  ghost predicate ReportedMatch(line: string, m: ItemMatch)
  {
    ItemRegexMatch(line, m) && forall m' :: ItemRegexMatch(line, m') ==> m.descEnd <= m'.descEnd
  }

  /** A run of `p`-characters ending at `e` that cannot be extended to the left
      starts where the backward scan stops. */
  lemma {:induction false} BackRunStart(s: string, e: nat, p: char -> bool, k: nat)
    requires k <= e <= |s|
    requires forall m :: k <= m < e ==> p(s[m])
    requires k == 0 || !p(s[k - 1])
    ensures SkipBackWhile(s, e, p) == k
  {
  }

  /** The backward scan over `p`-characters gets at least as far as any run of them. */
  lemma {:induction false} BackRunReaches(s: string, e: nat, p: char -> bool, k: nat)
    requires k <= e <= |s|
    requires forall m :: k <= m < e ==> p(s[m])
    ensures SkipBackWhile(s, e, p) <= k
  {
  }

  /** The scanner for the item-line regular expression. It works from the right end
      of the line: the last three whitespace-separated tokens are groups 4, 3 and 2,
      the whitespace before group 2 separates it from group 1, and group 1 is the
      rest, but never empty. */
  function MatchItemLine(line: string): Option<ItemMatch>
  {
    var found := ScanItemLine(line).0;
    if ScanSucceeded(line, found) then Some(found) else None
  }

  /** The spans the backward scans find, and where the whitespace before group 2
      starts. */
  function ScanItemLine(line: string): (ItemMatch, nat)
  {
    var n := |line|;
    var amountStart := SkipBackWhile(line, n, NotSpace);
    var rateEnd := SkipBackWhile(line, amountStart, IsSpace);
    var rateStart := SkipBackWhile(line, rateEnd, NotSpace);
    var qtyEnd := SkipBackWhile(line, rateStart, IsSpace);
    var qtyStart := SkipBackWhile(line, qtyEnd, NotSpace);
    var gapStart := SkipBackWhile(line, qtyStart, IsSpace);
    var descEnd := if gapStart == 0 then 1 else gapStart;
    (ItemMatch(descEnd, qtyStart, qtyEnd, rateStart, rateEnd, amountStart), gapStart)
  }

  /** The scanner reports exactly the match Python's engine reports: when it finds
      spans they are a match with the shortest group 1, and every match shares its
      groups 2 to 4. */
  lemma {:induction false} MatchItemLineSpec(line: string)
    ensures MatchItemLine(line).Some? ==> ReportedMatch(line, MatchItemLine(line).value)
    ensures forall m :: ItemRegexMatch(line, m) ==>
      MatchItemLine(line).Some? && m == MatchItemLine(line).value.(descEnd := m.descEnd)
  {
    var found, gapStart := ScanItemLine(line).0, ScanItemLine(line).1;
    MatchItemLineSound(line, found, gapStart);
    if ScanSucceeded(line, found) {
      FoundIsMatch(line, found, gapStart);
    }
  }

  /** The checks the scanner makes on the spans it found. */
  predicate ScanSucceeded(line: string, found: ItemMatch)
  {
    && found.descEnd < found.qtyStart < found.qtyEnd < found.rateStart
    && found.rateStart < found.rateEnd < found.amountStart < |line|
    && AllIn(line, found.qtyStart, found.qtyEnd, IsDigit)
    && AllIn(line, found.rateStart, found.rateEnd, IsRateChar)
    && AllIn(line, found.amountStart, |line|, IsRateChar)
  }

  /** When the checks pass, the spans the scanner found are a match. */
  lemma {:induction false} FoundIsMatch(line: string, found: ItemMatch, gapStart: nat)
    requires ScanSucceeded(line, found)
    requires found.amountStart == SkipBackWhile(line, |line|, NotSpace)
    requires found.rateEnd == SkipBackWhile(line, found.amountStart, IsSpace)
    requires found.qtyEnd == SkipBackWhile(line, found.rateStart, IsSpace)
    requires gapStart == SkipBackWhile(line, found.qtyStart, IsSpace)
    requires found.descEnd == if gapStart == 0 then 1 else gapStart
    ensures ItemRegexMatch(line, found)
  {
  }

  /** Every match of the regular expression shares the groups 2 to 4 the scanner
      finds, and its group 1 is no shorter than the scanner's. */
  lemma {:induction false} MatchItemLineSound(line: string, found: ItemMatch, gapStart: nat)
    requires found.amountStart == SkipBackWhile(line, |line|, NotSpace)
    requires found.rateEnd == SkipBackWhile(line, found.amountStart, IsSpace)
    requires found.rateStart == SkipBackWhile(line, found.rateEnd, NotSpace)
    requires found.qtyEnd == SkipBackWhile(line, found.rateStart, IsSpace)
    requires found.qtyStart == SkipBackWhile(line, found.qtyEnd, NotSpace)
    requires gapStart == SkipBackWhile(line, found.qtyStart, IsSpace)
    requires found.descEnd == if gapStart == 0 then 1 else gapStart
    ensures forall m :: ItemRegexMatch(line, m) ==>
      && found == m.(descEnd := found.descEnd)
      && found.descEnd <= m.descEnd
      && ScanSucceeded(line, found)
  {
    forall m | ItemRegexMatch(line, m)
      ensures found == m.(descEnd := found.descEnd) && found.descEnd <= m.descEnd
      ensures ScanSucceeded(line, found)
    {
      MatchAgrees(line, found, gapStart, m);
    }
  }

  lemma {:induction false} MatchAgrees(line: string, found: ItemMatch, gapStart: nat, m: ItemMatch)
    requires found.amountStart == SkipBackWhile(line, |line|, NotSpace)
    requires found.rateEnd == SkipBackWhile(line, found.amountStart, IsSpace)
    requires found.rateStart == SkipBackWhile(line, found.rateEnd, NotSpace)
    requires found.qtyEnd == SkipBackWhile(line, found.rateStart, IsSpace)
    requires found.qtyStart == SkipBackWhile(line, found.qtyEnd, NotSpace)
    requires gapStart == SkipBackWhile(line, found.qtyStart, IsSpace)
    requires found.descEnd == if gapStart == 0 then 1 else gapStart
    requires ItemRegexMatch(line, m)
    ensures found == m.(descEnd := found.descEnd) && found.descEnd <= m.descEnd
  {
    MatchBoundaries(line, m);
  }

  /** Where the backward scans stop on a line that matches with spans `m`. */
  lemma {:induction false} MatchBoundaries(line: string, m: ItemMatch)
    requires ItemRegexMatch(line, m)
    ensures SkipBackWhile(line, |line|, NotSpace) == m.amountStart
    ensures SkipBackWhile(line, m.amountStart, IsSpace) == m.rateEnd
    ensures SkipBackWhile(line, m.rateEnd, NotSpace) == m.rateStart
    ensures SkipBackWhile(line, m.rateStart, IsSpace) == m.qtyEnd
    ensures SkipBackWhile(line, m.qtyEnd, NotSpace) == m.qtyStart
    ensures SkipBackWhile(line, m.qtyStart, IsSpace) <= m.descEnd
  {
    AmountStartFound(line, m);
    RateEndFound(line, m);
    RateStartFound(line, m);
    QtyEndFound(line, m);
    QtyStartFound(line, m);
    BackRunReaches(line, m.qtyStart, IsSpace, m.descEnd);
  }

  lemma {:induction false} AmountStartFound(line: string, m: ItemMatch)
    requires ItemRegexMatch(line, m)
    ensures SkipBackWhile(line, |line|, NotSpace) == m.amountStart
  {
    assert forall k :: m.amountStart <= k < |line| ==> NotSpace(line[k]);
    assert !NotSpace(line[m.amountStart - 1]);
    BackRunStart(line, |line|, NotSpace, m.amountStart);
  }

  lemma {:induction false} RateEndFound(line: string, m: ItemMatch)
    requires ItemRegexMatch(line, m)
    ensures SkipBackWhile(line, m.amountStart, IsSpace) == m.rateEnd
  {
    assert !IsSpace(line[m.rateEnd - 1]);
    BackRunStart(line, m.amountStart, IsSpace, m.rateEnd);
  }

  lemma {:induction false} RateStartFound(line: string, m: ItemMatch)
    requires ItemRegexMatch(line, m)
    ensures SkipBackWhile(line, m.rateEnd, NotSpace) == m.rateStart
  {
    assert forall k :: m.rateStart <= k < m.rateEnd ==> NotSpace(line[k]);
    assert !NotSpace(line[m.rateStart - 1]);
    BackRunStart(line, m.rateEnd, NotSpace, m.rateStart);
  }

  lemma {:induction false} QtyEndFound(line: string, m: ItemMatch)
    requires ItemRegexMatch(line, m)
    ensures SkipBackWhile(line, m.rateStart, IsSpace) == m.qtyEnd
  {
    assert !IsSpace(line[m.qtyEnd - 1]);
    BackRunStart(line, m.rateStart, IsSpace, m.qtyEnd);
  }

  lemma {:induction false} QtyStartFound(line: string, m: ItemMatch)
    requires ItemRegexMatch(line, m)
    ensures SkipBackWhile(line, m.qtyEnd, NotSpace) == m.qtyStart
  {
    assert forall k :: m.qtyStart <= k < m.qtyEnd ==> NotSpace(line[k]);
    assert !NotSpace(line[m.qtyStart - 1]);
    BackRunStart(line, m.qtyEnd, NotSpace, m.qtyStart);
  }

  // ---------------------------------------------------------------------------
  // int() and float() on the groups

  /** Digits written after others shift them left by their own count. */
  lemma {:induction false} DigitsConcat(a: string, b: string)
    requires AllIn(a, 0, |a|, IsDigit) && AllIn(b, 0, |b|, IsDigit)
    ensures AllIn(a + b, 0, |a + b|, IsDigit)
    ensures DigitsValue(a + b) == DigitsValue(a) * Pow10(|b|) + DigitsValue(b)
  {
    if b == [] {
      assert a + b == a;
    } else {
      var b' := b[..|b| - 1];
      assert (a + b)[..|a + b| - 1] == a + b';
      assert (a + b)[|a + b| - 1] == b[|b| - 1];
      DigitsConcat(a, b');
      Distribute(DigitsValue(a), Pow10(|b'|), DigitsValue(b'), DigitValue(b[|b| - 1]));
    }
  }

  lemma {:induction false} Distribute(x: int, p: int, y: int, d: int)
    ensures 10 * (x * p + y) + d == x * (10 * p) + (10 * y + d)
  {
  }

  /** The number with integer part `x` and fraction `y / q`. */
  function Decimal(x: nat, y: nat, q: nat): (r: real)
    requires q > 0
    ensures r >= x as real
  {
    x as real + y as real / q as real
  }

  /** `s` holds at most one decimal point. */
  ghost predicate AtMostOnePoint(s: string)
  {
    forall i, j :: 0 <= i < j < |s| && s[i] == '.' ==> s[j] != '.'
  }

  /** `float(s)` for a string of digits and points: it raises (None) unless there is
      at most one point and at least one digit, and otherwise gives the number the
      digits write. Python's float is binary and rounds; this value is exact. */
  function ParseDecimal(s: string): (r: Option<real>)
    requires AllIn(s, 0, |s|, IsRateChar)
    ensures r.Some? ==> r.value >= 0.0
  {
    var p := SkipWhile(s, 0, IsDigit);
    if p == |s| then
      if p == 0 then None else Some(DigitsValue(s) as real)
    else
      var frac := s[p + 1..];
      if AllIn(frac, 0, |frac|, IsDigit) && (p > 0 || |frac| > 0) then
        Some(Decimal(DigitsValue(s[..p]), DigitsValue(frac), Pow10(|frac|)))
      else None
  }

  /** `float` accepts a run of digits and points exactly when it holds at most one
      point and at least one digit. */
  lemma {:induction false} ParseDecimalAccepts(s: string)
    requires AllIn(s, 0, |s|, IsRateChar)
    ensures ParseDecimal(s).Some? <==> AtMostOnePoint(s) && exists k :: 0 <= k < |s| && IsDigit(s[k])
  {
    var p := SkipWhile(s, 0, IsDigit);
    if p < |s| {
      var frac := s[p + 1..];
      if !AllIn(frac, 0, |frac|, IsDigit) {
        var k :| 0 <= k < |frac| && !IsDigit(frac[k]);
        assert s[p + 1 + k] == '.';
      } else if p == 0 && |frac| == 0 {
        assert |s| == 1;
      } else {
        assert AtMostOnePoint(s) by {
          forall i, j | 0 <= i < j < |s| && s[i] == '.'
            ensures s[j] != '.'
          {
            assert i == p;
            assert s[j] == frac[j - p - 1];
          }
        }
        if p > 0 {
          assert IsDigit(s[0]);
        } else {
          assert IsDigit(s[1]);
        }
      }
    }
  }

  /** The value `float` gives: with no point, the integer the digits write; with the
      point at `i`, the integer written by all the digits divided by ten to the
      count of digits after the point. */
  lemma {:induction false} ParseDecimalValue(s: string)
    requires AllIn(s, 0, |s|, IsRateChar) && ParseDecimal(s).Some?
    ensures AllIn(s, 0, |s|, IsDigit) ==> ParseDecimal(s).value == DigitsValue(s) as real
    ensures forall i :: 0 <= i < |s| && s[i] == '.' ==>
      AllIn(s[..i] + s[i + 1..], 0, |s| - 1, IsDigit) &&
      ParseDecimal(s).value == DigitsValue(s[..i] + s[i + 1..]) as real / Pow10(|s| - 1 - i) as real
  {
    var p := SkipWhile(s, 0, IsDigit);
    if p < |s| {
      var frac := s[p + 1..];
      assert AllIn(frac, 0, |frac|, IsDigit);
      assert forall m :: p + 1 <= m < |s| ==> s[m] == frac[m - p - 1];
      DecimalScaled(s[..p], frac);
      PointUnique(s, p);
      assert s[..p] + frac == s[..p] + s[p + 1..];
    }
  }

  lemma {:induction false} PointUnique(s: string, p: nat)
    requires p < |s| && AllIn(s, 0, p, IsDigit) && AllIn(s, p + 1, |s|, IsDigit)
    ensures forall i :: 0 <= i < |s| && s[i] == '.' ==> i == p
  {
  }

  /** A decimal with integer digits `a` and fraction digits `b` is the integer that
      `a + b` writes, divided by ten to the length of `b`. */
  lemma {:induction false} DecimalScaled(a: string, b: string)
    requires AllIn(a, 0, |a|, IsDigit) && AllIn(b, 0, |b|, IsDigit)
    ensures AllIn(a + b, 0, |a + b|, IsDigit)
    ensures Decimal(DigitsValue(a), DigitsValue(b), Pow10(|b|)) == DigitsValue(a + b) as real / Pow10(|b|) as real
  {
    DigitsConcat(a, b);
    DecimalFraction(DigitsValue(a), DigitsValue(b), Pow10(|b|));
  }

  lemma {:induction false} DecimalFraction(x: nat, y: nat, q: nat)
    requires q > 0
    ensures Decimal(x, y, q) == (x * q + y) as real / q as real
  {
    CastProduct(x, q);
    AddFraction(x as real, y as real, q as real);
  }

  lemma {:induction false} CastProduct(x: nat, q: nat)
    ensures (x * q) as real == x as real * q as real
  {
  }

  lemma {:induction false} AddFraction(x: real, y: real, q: real)
    requires q > 0.0
    ensures x + y / q == (x * q + y) / q
  {
  }

  // ---------------------------------------------------------------------------
  // One line of the item table

  /** What a line inside the item section gives: nothing, an `int` or `float`
      conversion that raises, or an item. */
  datatype LineOutcome = NoItem | BadNumber | Item(item: LineItem)

  /** Every character of `s[a..b]` satisfies `p`, read on the slice itself. */
  lemma {:induction false} AllInSlice(s: string, a: nat, b: nat, p: char -> bool)
    requires a <= b <= |s| && AllIn(s, a, b, p)
    ensures AllIn(s[a..b], 0, b - a, p)
  {
    assert forall m :: 0 <= m < b - a ==> s[a..b][m] == s[a + m];
  }

  /** CPython's default limit on the digits `int` converts from a string
      (`sys.int_info.default_max_str_digits`); a longer string raises `ValueError`. */
  const MaxIntDigits := 4300

  /** The item the groups of the match `m` give: the stripped description, `int` of
      group 2 and `float` of groups 3 and 4, or BadNumber when a conversion raises:
      `int` on more than MaxIntDigits digits, or `float` on a malformed number. */
  function ItemOf(line: string, m: ItemMatch): LineOutcome
    requires ItemRegexMatch(line, m)
  {
    AllInSlice(line, m.qtyStart, m.qtyEnd, IsDigit);
    AllInSlice(line, m.rateStart, m.rateEnd, IsRateChar);
    AllInSlice(line, m.amountStart, |line|, IsRateChar);
    var rate := ParseDecimal(line[m.rateStart..m.rateEnd]);
    var amount := ParseDecimal(line[m.amountStart..]);
    if m.qtyEnd - m.qtyStart <= MaxIntDigits && rate.Some? && amount.Some? then
      Item(LineItem(Strip(line[..m.descEnd]), DigitsValue(line[m.qtyStart..m.qtyEnd]),
                    rate.value, amount.value))
    else BadNumber
  }

  /** The loop body's work on a non-blank line inside the section: `re.match` with
      the item pattern, then the conversions of the groups. */
  function ReadItemLine(line: string): LineOutcome
  {
    match MatchItemLine(line)
    case None => NoItem
    case Some(m) =>
      MatchItemLineSpec(line);
      ItemOf(line, m)
  }

  /** A match's groups give an item exactly when the `int` call and both `float`
      calls succeed, and then its rate and amount are not negative. */
  lemma {:induction false} ItemOfSpec(line: string, m: ItemMatch)
    requires ItemRegexMatch(line, m)
    ensures ItemOf(line, m) != NoItem
    ensures ItemOf(line, m).Item? <==>
      (&& m.qtyEnd - m.qtyStart <= MaxIntDigits
       && ParseDecimal(line[m.rateStart..m.rateEnd]).Some? && ParseDecimal(line[m.amountStart..]).Some?)
    ensures ItemOf(line, m).Item? ==> ItemOf(line, m).item.rate >= 0.0 && ItemOf(line, m).item.amount >= 0.0
  {
  }

  /** A line gives nothing exactly when the regular expression does not match it;
      otherwise it gives what the groups of the reported match give. */
  lemma {:induction false} ReadItemLineSpec(line: string)
    ensures ReadItemLine(line).NoItem? <==> forall m :: !ItemRegexMatch(line, m)
    ensures !ReadItemLine(line).NoItem? ==>
      exists m :: ReportedMatch(line, m) && ReadItemLine(line) == ItemOf(line, m)
  {
    MatchItemLineSpec(line);
    if MatchItemLine(line).Some? {
      ItemOfSpec(line, MatchItemLine(line).value);
    }
  }

  /** On a stripped line the description needs no strip of its own: it is group 1
      itself, which is not empty and has no whitespace at either end. */
  lemma {:induction false} ItemDescription(line: string)
    requires line != [] && !IsSpace(line[0]) && !IsSpace(line[|line| - 1])
    requires ReadItemLine(line).Item?
    ensures exists m :: ReportedMatch(line, m)
              && ReadItemLine(line).item.description == line[..m.descEnd]
    ensures ReadItemLine(line).item.description != []
  {
    ReadItemLineSpec(line);
    var m :| ReportedMatch(line, m) && ReadItemLine(line) == ItemOf(line, m);
    MatchDescription(line, m);
  }

  /** The description an item line's reported match gives is group 1 itself. */
  lemma {:induction false} MatchDescription(line: string, m: ItemMatch)
    requires line != [] && !IsSpace(line[0]) && ReportedMatch(line, m)
    requires ItemOf(line, m).Item?
    ensures ItemOf(line, m).item.description == line[..m.descEnd] != []
  {
    GroupOneStripped(line, m);
  }

  /** Group 1 of the reported match on a stripped line has no whitespace at its ends. */
  lemma {:induction false} GroupOneStripped(line: string, m: ItemMatch)
    requires line != [] && !IsSpace(line[0]) && ReportedMatch(line, m)
    ensures Strip(line[..m.descEnd]) == line[..m.descEnd]
  {
    if IsSpace(line[m.descEnd - 1]) {
      ShorterMatch(line, m);
    }
    StripUnchanged(line[..m.descEnd]);
  }

  /** Group 1 ending in whitespace could give that whitespace to the gap after it. */
  lemma {:induction false} ShorterMatch(line: string, m: ItemMatch)
    requires ItemRegexMatch(line, m) && m.descEnd > 1 && IsSpace(line[m.descEnd - 1])
    ensures ItemRegexMatch(line, m.(descEnd := m.descEnd - 1))
  {
  }

  // ---------------------------------------------------------------------------
  // The item section

  /** The header line that opens the item section. */
  predicate Opens(line: string)
  {
    Contains(line, "DESCRIPTION") && Contains(line, "QTY") && Contains(line, "RATE")
  }

  /** A line of the payment or total part, which closes the item section. */
  predicate Closes(line: string)
  {
    Contains(line, "VERIFIED") || Contains(line, "TOTAL DUE") || Contains(line, "PAYMENT")
  }

  /** How the loop sees one line once it is stripped: the header that opens the item
      section, a line that closes it, a blank line, or a line it may read as an item. */
  datatype LineKind = Opening | Closing | Blank | Body(line: string)

  /** The loop's tests on one line, in the loop's order: the header test comes first,
      so a line that passes both tests opens the section. */
  function KindOf(raw: string): LineKind
  {
    var line := Strip(raw);
    if Opens(line) then Opening
    else if Closes(line) then Closing
    else if line == [] then Blank
    else Body(line)
  }

  /** The kinds of the lines, in order. */
  function KindsOf(lines: seq<string>): (r: seq<LineKind>)
    ensures |r| == |lines|
  {
    if lines == [] then [] else KindsOf(lines[..|lines| - 1]) + [KindOf(lines[|lines| - 1])]
  }

  lemma {:induction false} KindAt(lines: seq<string>, k: nat)
    requires k < |lines|
    ensures KindsOf(lines)[k] == KindOf(lines[k])
  {
    if k < |lines| - 1 {
      KindAt(lines[..|lines| - 1], k);
    }
  }

  /** Whether the loop is inside the item section once it has read `kinds[..k]`. */
  function InSection(kinds: seq<LineKind>, k: nat): bool
    requires k <= |kinds|
  {
    if k == 0 then false
    else match kinds[k - 1]
      case Opening => true
      case Closing => false
      case _ => InSection(kinds, k - 1)
  }

  /** Line `o` opens the section and no line after it, before `k`, opens or closes it. */
  ghost predicate OpenSince(kinds: seq<LineKind>, o: nat, k: nat)
    requires o < k <= |kinds|
  {
    kinds[o] == Opening && forall i :: o < i < k ==> kinds[i] == Blank || kinds[i].Body?
  }

  /** What line `k` contributes when `read` is the work done on a line inside the
      section (`ReadItemLine` in the model of the source). */
  function LineResult(kinds: seq<LineKind>, k: nat, read: string -> LineOutcome): LineOutcome
    requires k < |kinds|
  {
    match kinds[k]
    case Body(line) => if InSection(kinds, k) then read(line) else NoItem
    case _ => NoItem
  }

  /** What every line contributes, in order. */
  function Outcomes(kinds: seq<LineKind>, read: string -> LineOutcome): (r: seq<LineOutcome>)
    ensures |r| == |kinds|
  {
    OutcomesUpTo(kinds, |kinds|, read)
  }

  /** What the first `n` lines contribute, in order. */
  function OutcomesUpTo(kinds: seq<LineKind>, n: nat, read: string -> LineOutcome): (r: seq<LineOutcome>)
    requires n <= |kinds|
    ensures |r| == n
  {
    if n == 0 then [] else OutcomesUpTo(kinds, n - 1, read) + [LineResult(kinds, n - 1, read)]
  }

  /** Outcome `k` is what line `k` contributes. */
  lemma {:induction false} OutcomeAt(kinds: seq<LineKind>, n: nat, k: nat, read: string -> LineOutcome)
    requires k < n <= |kinds|
    ensures OutcomesUpTo(kinds, n, read)[k] == LineResult(kinds, k, read)
  {
    if k < n - 1 {
      OutcomeAt(kinds, n - 1, k, read);
    }
  }

  /** The items of the first `n` outcomes in order, or `Err(k)` when outcome `k` is
      the first whose conversion raised (the exception leaves `parse_line_items`). */
  function Collect(outs: seq<LineOutcome>, n: nat): Result<seq<LineItem>, nat>
    requires n <= |outs|
  {
    if n == 0 then Ok([])
    else match Collect(outs, n - 1)
      case Err(k) => Err(k)
      case Ok(items) =>
        match outs[n - 1]
        case NoItem => Ok(items)
        case BadNumber => Err(n - 1)
        case Item(item) => Ok(items + [item])
  }

  /** `parse_line_items(text)`: the items of every line of `text`. */
  function ItemsOf(text: string): Result<seq<LineItem>, nat>
  {
    var outs := Outcomes(KindsOf(SplitLines(text)), ReadItemLine);
    Collect(outs, |outs|)
  }

  /** The positions of the outcomes that are items. */
  function ItemAt(outs: seq<LineOutcome>): nat -> bool
  {
    (k: nat) => k < |outs| && outs[k].Item?
  }

  /** `parse_line_items` as the source writes it. */
  method ParseLineItems(text: string) returns (r: Result<seq<LineItem>, nat>)
    ensures r == ItemsOf(text)
  {
    r := ScanLines(SplitLines(text), ReadItemLine);
  }

  /** The loop of `parse_line_items`: one pass over the lines with an in-section flag,
      where `read` is the work done on a line inside the section. */
  method ScanLines(lines: seq<string>, read: string -> LineOutcome) returns (r: Result<seq<LineItem>, nat>)
    ensures r == Collect(Outcomes(KindsOf(lines), read), |lines|)
  {
    ghost var kinds := KindsOf(lines);
    ghost var outs := Outcomes(kinds, read);
    var items: seq<LineItem> := [];
    var inSection := false;
    for i := 0 to |lines|
      invariant inSection == InSection(kinds, i)
      invariant Collect(outs, i) == Ok(items)
    {
      var line := Strip(lines[i]);
      KindAt(lines, i);
      LoopStep(kinds, i, inSection, items, read);
      if Opens(line) {
        assert kinds[i] == Opening;
        inSection := true;
        continue;
      }
      if Closes(line) {
        assert kinds[i] == Closing;
        inSection := false;
        continue;
      }
      if !inSection || line == [] {
        assert kinds[i] == Blank || !inSection;
        continue;
      }
      assert kinds[i] == Body(line);
      var outcome := read(line);
      match outcome
      case BadNumber =>
        CollectErrStays(outs, i + 1, |outs|);
        return Err(i);
      case Item(item) =>
        items := items + [item];
      case NoItem =>
    }
    return Ok(items);
  }

  /** One pass of the loop: how the flag and the collected items follow from line `i`. */
  lemma {:induction false} LoopStep(kinds: seq<LineKind>, i: nat, inSection: bool, items: seq<LineItem>,
                 read: string -> LineOutcome)
    requires i < |kinds| && inSection == InSection(kinds, i)
    requires Collect(Outcomes(kinds, read), i) == Ok(items)
    ensures InSection(kinds, i + 1) == (kinds[i] == Opening || (kinds[i] != Closing && inSection))
    ensures Collect(Outcomes(kinds, read), i + 1) ==
      match kinds[i]
      case Body(line) =>
        if !inSection then Ok(items)
        else (match read(line)
          case NoItem => Ok(items)
          case BadNumber => Err(i)
          case Item(item) => Ok(items + [item]))
      case _ => Ok(items)
  {
    OutcomeAt(kinds, |kinds|, i, read);
  }

  // ---------------------------------------------------------------------------
  // Properties of the item section

  /** Once a line's conversion raises, no later line changes the outcome. */
  lemma {:induction false} CollectErrStays(outs: seq<LineOutcome>, n: nat, n': nat)
    requires n <= n' <= |outs| && Collect(outs, n).Err?
    ensures Collect(outs, n') == Collect(outs, n)
    decreases n' - n
  {
    if n < n' {
      CollectErrStays(outs, n, n' - 1);
    }
  }

  /** The loop is inside the item section exactly when some earlier line opened it
      and no line since then opened or closed it. */
  lemma {:induction false} SectionIff(kinds: seq<LineKind>, k: nat)
    requires k <= |kinds|
    ensures InSection(kinds, k) <==> exists o :: 0 <= o < k && OpenSince(kinds, o, k)
  {
    if k > 0 {
      SectionIff(kinds, k - 1);
      match kinds[k - 1]
      case Opening =>
        assert OpenSince(kinds, k - 1, k);
      case Closing =>
        forall o | 0 <= o < k
          ensures !OpenSince(kinds, o, k)
        {
          assert o < k - 1 ==> kinds[k - 1] == Closing;
        }
      case _ =>
        if InSection(kinds, k) {
          var o :| 0 <= o < k - 1 && OpenSince(kinds, o, k - 1);
          assert OpenSince(kinds, o, k);
        }
        if exists o :: 0 <= o < k && OpenSince(kinds, o, k) {
          var o :| 0 <= o < k && OpenSince(kinds, o, k);
          assert o < k - 1;
          assert OpenSince(kinds, o, k - 1);
        }
    }
  }

  /** A line that passes the header test opens (or re-opens) the section, even when
      it also names a closing word; a line that only passes the closing test closes
      it. */
  lemma {:induction false} HeaderBeforeTerminator(lines: seq<string>, k: nat)
    requires k < |lines|
    ensures Opens(Strip(lines[k])) ==> InSection(KindsOf(lines), k + 1)
    ensures !Opens(Strip(lines[k])) && Closes(Strip(lines[k])) ==> !InSection(KindsOf(lines), k + 1)
  {
    KindAt(lines, k);
  }

  /** A line gives an item or raises only inside the item section: after an opening
      line with no opening or closing line in between, and when, stripped, it is
      neither blank nor an opening or closing line; what it gives is what reading
      the stripped line gives. */
  lemma {:induction false} ItemLineInSection(lines: seq<string>, k: nat)
    requires k < |lines| && LineResult(KindsOf(lines), k, ReadItemLine) != NoItem
    ensures exists o :: 0 <= o < k && OpenSince(KindsOf(lines), o, k)
    ensures var line := Strip(lines[k]);
      && line != [] && !Opens(line) && !Closes(line)
      && ReadItemLine(line) == LineResult(KindsOf(lines), k, ReadItemLine)
  {
    var kinds := KindsOf(lines);
    KindAt(lines, k);
    SectionIff(kinds, k);
  }

  /** Before the first opening line there are no items. */
  lemma {:induction false} NothingBeforeHeader(kinds: seq<LineKind>, n: nat, read: string -> LineOutcome)
    requires n <= |kinds|
    requires forall k :: 0 <= k < n ==> kinds[k] != Opening
    ensures forall k :: 0 <= k <= n ==> !InSection(kinds, k)
    ensures forall k :: 0 <= k < n ==> LineResult(kinds, k, read) == NoItem
  {
    if n > 0 {
      NothingBeforeHeader(kinds, n - 1, read);
    }
  }

  /** The outcome is an error exactly when some line's conversion raises, and the error
      names the first such line. */
  lemma {:induction false} CollectErr(outs: seq<LineOutcome>, n: nat)
    requires n <= |outs|
    ensures Collect(outs, n).Err? <==> exists k :: 0 <= k < n && outs[k].BadNumber?
    ensures Collect(outs, n).Err? ==>
      var k := Collect(outs, n).error;
      k < n && outs[k].BadNumber? && forall j :: 0 <= j < k ==> !outs[j].BadNumber?
  {
    if n > 0 {
      CollectErr(outs, n - 1);
    }
  }

  /** Without an error, the items are those of the item lines, one each, in the
      order of the lines. */
  lemma {:induction false} CollectItems(outs: seq<LineOutcome>, n: nat)
    requires n <= |outs| && Collect(outs, n).Ok?
    ensures var items := Collect(outs, n).value;
      var idx := Indices(n, ItemAt(outs));
      |items| == |idx| && forall t :: 0 <= t < |idx| ==> outs[idx[t]] == Item(items[t])
  {
    if n > 0 {
      CollectItems(outs, n - 1);
      var idx := Indices(n - 1, ItemAt(outs));
      assert Indices(n, ItemAt(outs)) == idx + (if ItemAt(outs)(n - 1) then [n - 1] else []);
    }
  }

  /** An invoice has at most as many items as its text has lines, and with no item
      section it has none. */
  lemma {:induction false} ItemsBound(text: string)
    requires ItemsOf(text).Ok?
    ensures |ItemsOf(text).value| <= |SplitLines(text)|
    ensures (forall k :: 0 <= k < |SplitLines(text)| ==> !Opens(Strip(SplitLines(text)[k])))
            ==> ItemsOf(text).value == []
  {
    var lines := SplitLines(text);
    var kinds := KindsOf(lines);
    var outs := Outcomes(kinds, ReadItemLine);
    CollectItems(outs, |outs|);
    if forall k :: 0 <= k < |lines| ==> !Opens(Strip(lines[k])) {
      forall k | 0 <= k < |kinds|
        ensures kinds[k] != Opening
      {
        KindAt(lines, k);
      }
      NothingBeforeHeader(kinds, |kinds|, ReadItemLine);
      forall k | 0 <= k < |outs|
        ensures !ItemAt(outs)(k)
      {
        OutcomeAt(kinds, |kinds|, k, ReadItemLine);
      }
      IndicesNone(|outs|, ItemAt(outs));
    }
  }
}
