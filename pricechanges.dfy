/** `analyze_price_changes` (process_invoices.py:188-212): for every distinct item of
    the tracking table, its rows in date order, and one event for every pair of
    neighbouring rows whose prices differ. */
module PriceChanges {
  import opened Wrappers
  import opened Text
  import opened Sequences
  import opened Dates
  import opened PriceTracking

  /** One entry of `price_changes`. The percentage is `None` where the previous price
      is zero (numpy gives an infinity there). */
  datatype PriceChange = PriceChange(itemName: string, previousDate: string, currentDate: string,
                                     previousPrice: real, currentPrice: real, priceChange: real,
                                     percentageChange: Option<real>)

  /** `((curr - prev) / prev) * 100`, before rounding. */
  function Percentage(prev: real, curr: real): Option<real>
  {
    if prev == 0.0 then None else Some((curr - prev) / prev * 100.0)
  }

  /** The percentage is defined exactly when the previous price is not zero, and it
      is the change measured in hundredths of the previous price. */
  lemma {:induction false} PercentageSpec(prev: real, curr: real)
    ensures Percentage(prev, curr).Some? <==> prev != 0.0
    ensures Percentage(prev, curr).Some? ==> Percentage(prev, curr).value * prev == (curr - prev) * 100.0
  {
  }

  /** From a positive price the percentage has the sign of the change. */
  lemma {:induction false} PercentageSign(prev: real, curr: real)
    requires prev > 0.0
    ensures Percentage(prev, curr).Some?
    ensures Percentage(prev, curr).value > 0.0 <==> curr > prev
    ensures Percentage(prev, curr).value < 0.0 <==> curr < prev
    ensures Percentage(prev, curr).value == 0.0 <==> curr == prev
  {
    PercentageSpec(prev, curr);
    var p := Percentage(prev, curr).value;
    assert p * prev == (curr - prev) * 100.0;
    if p > 0.0 {
      assert p * prev > 0.0;
    } else if p < 0.0 {
      assert p * prev < 0.0;
    }
  }

  // ---------------------------------------------------------------------------
  // One item

  /** The order of `sort_values('date')`. */
  predicate DateOrder(a: PriceRecord, b: PriceRecord)
  {
    DateLe(a.date, b.date)
  }

  lemma {:induction false} DateOrderTotalPreorder()
    ensures TotalPreorder(DateOrder)
  {
    DateLeTotalPreorder();
  }

  /** The event for the pair of rows `i - 1` and `i` of an item's history. */
  function ChangeAt(name: string, hist: seq<PriceRecord>, i: nat): PriceChange
    requires 1 <= i < |hist|
  {
    var prev, curr := hist[i - 1], hist[i];
    PriceChange(name, FormatUsDate(prev.date), FormatUsDate(curr.date), prev.price, curr.price,
                curr.price - prev.price, Percentage(prev.price, curr.price))
  }

  /** The pair of rows `i - 1` and `i` has different prices. */
  function Differs(hist: seq<PriceRecord>): nat -> bool
  {
    (i: nat) => 1 <= i < |hist| && hist[i - 1].price != hist[i].price
  }

  /** The events of the pairs ending before row `n` of the history, in order. */
  function ItemChanges(name: string, hist: seq<PriceRecord>, n: nat): seq<PriceChange>
    requires n <= |hist|
  {
    if n <= 1 then []
    else
      var step := if hist[n - 2].price != hist[n - 1].price then [ChangeAt(name, hist, n - 1)] else [];
      ItemChanges(name, hist, n - 1) + step
  }

  /** An item with `n` rows has at most `n - 1` events, and none with one row or none. */
  lemma {:induction false} ItemChangesCount(name: string, hist: seq<PriceRecord>, n: nat)
    requires n <= |hist|
    ensures n <= 1 ==> ItemChanges(name, hist, n) == []
    ensures n >= 1 ==> |ItemChanges(name, hist, n)| <= n - 1
  {
    if n > 1 {
      ItemChangesCount(name, hist, n - 1);
    }
  }

  /** The events are those of the pairs whose prices differ, one each, in the order of
      the pairs. */
  lemma {:induction false} ItemChangesAt(name: string, hist: seq<PriceRecord>, n: nat)
    requires n <= |hist|
    ensures var r, idx := ItemChanges(name, hist, n), Indices(n, Differs(hist));
      |r| == |idx| && forall t :: 0 <= t < |idx| ==> r[t] == ChangeAt(name, hist, idx[t])
  {
    var r, idx := ItemChanges(name, hist, n), Indices(n, Differs(hist));
    if n > 1 {
      ItemChangesAt(name, hist, n - 1);
      var prior, idx' := ItemChanges(name, hist, n - 1), Indices(n - 1, Differs(hist));
      if Differs(hist)(n - 1) {
        assert r == prior + [ChangeAt(name, hist, n - 1)];
        assert idx == idx' + [n - 1];
        forall t | 0 <= t < |idx|
          ensures r[t] == ChangeAt(name, hist, idx[t])
        {
          if t < |idx'| {
            assert r[t] == prior[t] && idx[t] == idx'[t];
          }
        }
      } else {
        assert r == prior && idx == idx';
      }
    } else if n == 1 {
      assert !Differs(hist)(0);
      assert idx == [];
    }
  }

  /** Neighbouring events chain up: each event starts from the price the one before
      it ended at, since the rows between them all keep that price. */
  lemma {:induction false} EventChain(name: string, hist: seq<PriceRecord>, n: nat, t: nat)
    requires n <= |hist| && t + 1 < |ItemChanges(name, hist, n)|
    ensures ItemChanges(name, hist, n)[t + 1].previousPrice == ItemChanges(name, hist, n)[t].currentPrice
  {
    var events, prior := ItemChanges(name, hist, n), ItemChanges(name, hist, n - 1);
    if t + 1 < |prior| {
      EventChain(name, hist, n - 1, t);
      assert events[t + 1] == prior[t + 1] && events[t] == prior[t];
    } else {
      assert events == prior + [ChangeAt(name, hist, n - 1)];
      LastEventPrice(name, hist, n - 1);
    }
  }

  /** The last event ends at the price of the last row: after it, the price stays. */
  lemma {:induction false} LastEventPrice(name: string, hist: seq<PriceRecord>, n: nat)
    requires 1 <= n <= |hist| && ItemChanges(name, hist, n) != []
    ensures var events := ItemChanges(name, hist, n);
      events[|events| - 1].currentPrice == hist[n - 1].price
  {
    var events, prior := ItemChanges(name, hist, n), ItemChanges(name, hist, n - 1);
    assert n >= 2;
    var step := if hist[n - 2].price != hist[n - 1].price then [ChangeAt(name, hist, n - 1)] else [];
    assert events == prior + step;
    if step == [] {
      LastEventPrice(name, hist, n - 1);
    }
  }

  /** The sum of the price changes of the events. */
  function TotalChange(events: seq<PriceChange>): real
  {
    if events == [] then 0.0 else TotalChange(events[..|events| - 1]) + events[|events| - 1].priceChange
  }

  /** The changes of an item add up to its last price minus its first. */
  lemma {:induction false} Telescoping(name: string, hist: seq<PriceRecord>, n: nat)
    requires 1 <= n <= |hist|
    ensures TotalChange(ItemChanges(name, hist, n)) == hist[n - 1].price - hist[0].price
  {
    if n > 1 {
      Telescoping(name, hist, n - 1);
      var prior := ItemChanges(name, hist, n - 1);
      if hist[n - 2].price != hist[n - 1].price {
        var r := prior + [ChangeAt(name, hist, n - 1)];
        assert ItemChanges(name, hist, n) == r;
        assert r[..|r| - 1] == prior;
        assert TotalChange(r) == TotalChange(prior) + (hist[n - 1].price - hist[n - 2].price);
      } else {
        assert ItemChanges(name, hist, n) == prior;
      }
    }
  }

  // ---------------------------------------------------------------------------
  // The whole table

  /** The `item_name` column, in table order. */
  function ItemNames(table: seq<PriceRecord>): (r: seq<string>)
    ensures |r| == |table| && forall k :: 0 <= k < |table| ==> r[k] == table[k].itemName
  {
    seq(|table|, k requires 0 <= k < |table| => table[k].itemName)
  }

  /** `price_df['item_name'].unique()`: every item name of the table once, in order of
      first appearance: a row of an earlier name comes before every row of a later one. */
  function Names(table: seq<PriceRecord>): (r: seq<string>)
    ensures forall name :: name in r <==> exists k :: 0 <= k < |table| && table[k].itemName == name
    ensures forall i, j :: 0 <= i < j < |r| ==> r[i] != r[j]
    ensures forall i, j, k :: 0 <= i < j < |r| && 0 <= k < |table| && table[k].itemName == r[j] ==>
      exists k' :: 0 <= k' < k && table[k'].itemName == r[i]
  {
    var names := ItemNames(table);
    var r := Distinct(names);
    forall name
      ensures name in names <==> exists k :: 0 <= k < |table| && table[k].itemName == name
    {
      if name in names {
        var k :| 0 <= k < |names| && names[k] == name;
        assert table[k].itemName == name;
      }
      if exists k :: 0 <= k < |table| && table[k].itemName == name {
        var k :| 0 <= k < |table| && table[k].itemName == name;
        assert names[k] == name;
      }
    }
    forall i, j, k | 0 <= i < j < |r| && 0 <= k < |table| && table[k].itemName == r[j]
      ensures exists k' :: 0 <= k' < k && table[k'].itemName == r[i]
    {
      var fi := FirstIndex(names, r[i]);
      assert table[fi].itemName == r[i];
    }
    r
  }

  /** The rows `price_df['item_name'] == name` selects. */
  function NamedAs(name: string): PriceRecord -> bool
  {
    (x: PriceRecord) => x.itemName == name
  }

  /** The rows of item `name`, in date order. */
  function History(table: seq<PriceRecord>, name: string): (r: seq<PriceRecord>)
    ensures SortedBy(r, DateOrder)
    ensures multiset(r) == multiset(Filter(table, NamedAs(name)))
  {
    DateOrderTotalPreorder();
    Sort(Filter(table, NamedAs(name)), DateOrder)
  }

  /** The events of the first `m` names, name by name. */
  function ChangesFor(table: seq<PriceRecord>, names: seq<string>, m: nat): seq<PriceChange>
    requires m <= |names|
  {
    if m == 0 then []
    else
      var hist := History(table, names[m - 1]);
      ChangesFor(table, names, m - 1) + ItemChanges(names[m - 1], hist, |hist|)
  }

  /** `analyze_price_changes(price_df)`: every event of every item. */
  function Changes(table: seq<PriceRecord>): seq<PriceChange>
  {
    ChangesFor(table, Names(table), |Names(table)|)
  }

  /** `analyze_price_changes` as the source writes it: a loop over the items and,
      inside it, a loop over the neighbouring pairs of rows. */
  method AnalyzePriceChanges(table: seq<PriceRecord>) returns (changes: seq<PriceChange>)
    ensures changes == Changes(table)
  {
    var names := Names(table);
    changes := [];
    for m := 0 to |names|
      invariant changes == ChangesFor(table, names, m)
    {
      var name := names[m];
      var hist := History(table, name);
      changes := AppendItemChanges(changes, name, hist);
      ChangesForStep(table, names, m);
    }
  }

  /** The inner loop of `analyze_price_changes`: the events of one item's history,
      appended to `changes`. */
  method AppendItemChanges(changes: seq<PriceChange>, name: string, hist: seq<PriceRecord>)
    returns (r: seq<PriceChange>)
    ensures r == changes + ItemChanges(name, hist, |hist|)
  {
    r := changes;
    if |hist| > 1 {
      for i := 1 to |hist|
        invariant r == changes + ItemChanges(name, hist, i)
      {
        ItemChangesStep(name, hist, i);
        if hist[i - 1].price != hist[i].price {
          r := r + [ChangeAt(name, hist, i)];
        }
      }
    } else {
      ItemChangesCount(name, hist, |hist|);
    }
  }

  /** One more pair adds its event exactly when its prices differ. */
  lemma {:induction false} ItemChangesStep(name: string, hist: seq<PriceRecord>, i: nat)
    requires 1 <= i < |hist|
    ensures ItemChanges(name, hist, i + 1) ==
      ItemChanges(name, hist, i) + (if hist[i - 1].price != hist[i].price then [ChangeAt(name, hist, i)] else [])
  {
  }

  /** One more name adds the events of its history. */
  lemma {:induction false} ChangesForStep(table: seq<PriceRecord>, names: seq<string>, m: nat)
    requires m < |names|
    ensures ChangesFor(table, names, m + 1) ==
      ChangesFor(table, names, m) + ItemChanges(names[m], History(table, names[m]), |History(table, names[m])|)
  {
  }

  /** Every event names an item of the table and compares two of its rows, the
      earlier first, whose prices differ: its prices, change and dates are theirs. */
  lemma {:induction false} ChangesSound(table: seq<PriceRecord>, names: seq<string>, m: nat)
    requires m <= |names|
    ensures forall e :: e in ChangesFor(table, names, m) ==> EventOf(table, e)
  {
    if m > 0 {
      ChangesSound(table, names, m - 1);
      var name := names[m - 1];
      var hist := History(table, name);
      var prior, events := ChangesFor(table, names, m - 1), ItemChanges(name, hist, |hist|);
      ItemEventsSound(table, name);
      assert ChangesFor(table, names, m) == prior + events;
      forall e | e in prior + events
        ensures EventOf(table, e)
      {
        if e !in prior {
          assert e in events;
        }
      }
    }
  }

  /** Every event of one item is an event between two rows of the table. */
  lemma {:induction false} ItemEventsSound(table: seq<PriceRecord>, name: string)
    ensures var hist := History(table, name);
      forall e :: e in ItemChanges(name, hist, |hist|) ==> EventOf(table, e)
  {
    var hist := History(table, name);
    var events := ItemChanges(name, hist, |hist|);
    forall e | e in events
      ensures EventOf(table, e)
    {
      var t :| 0 <= t < |events| && events[t] == e;
      EventSound(table, name, t);
    }
  }

  /** Event `t` of an item is the event between two of the item's rows. */
  lemma {:induction false} EventSound(table: seq<PriceRecord>, name: string, t: nat)
    requires t < |ItemChanges(name, History(table, name), |History(table, name)|)|
    ensures EventOf(table, ItemChanges(name, History(table, name), |History(table, name)|)[t])
  {
    var hist := History(table, name);
    var events := ItemChanges(name, hist, |hist|);
    ItemChangesAt(name, hist, |hist|);
    var i := Indices(|hist|, Differs(hist))[t];
    assert events[t] == ChangeAt(name, hist, i);
    InHistory(table, name, i - 1);
    InHistory(table, name, i);
    assert EventBetween(events[t], hist[i - 1], hist[i]);
  }

  /** Row `i` of the history of `name` is a row of the table with that name. */
  lemma {:induction false} InHistory(table: seq<PriceRecord>, name: string, i: nat)
    requires i < |History(table, name)|
    ensures History(table, name)[i] in table && History(table, name)[i].itemName == name
  {
    var hist := History(table, name);
    assert hist[i] in multiset(Filter(table, NamedAs(name)));
  }

  /** `e` is the event between rows `x` and `y`. */
  ghost predicate EventBetween(e: PriceChange, x: PriceRecord, y: PriceRecord)
  {
    && x.itemName == e.itemName && y.itemName == e.itemName
    && DateLe(x.date, y.date) && x.price != y.price
    && e.previousPrice == x.price && e.currentPrice == y.price
    && e.priceChange == y.price - x.price
    && e.percentageChange == Percentage(x.price, y.price)
    && e.previousDate == FormatUsDate(x.date) && e.currentDate == FormatUsDate(y.date)
  }

  /** `e` is the event between two rows of `table`. */
  ghost predicate EventOf(table: seq<PriceRecord>, e: PriceChange)
  {
    exists x, y :: x in table && y in table && EventBetween(e, x, y)
  }

  /** A table sorted by name and date needs no re-sort: the history of an item is its
      rows in table order. */
  lemma {:induction false} HistoryOfSorted(table: seq<PriceRecord>, name: string)
    requires SortedBy(table, RecordLe)
    ensures History(table, name) == Filter(table, NamedAs(name))
  {
    var f := Filter(table, NamedAs(name));
    FilterSorted(table, NamedAs(name), RecordLe);
    assert SortedBy(f, DateOrder) by {
      forall i, j | 0 <= i < j < |f|
        ensures DateOrder(f[i], f[j])
      {
        assert f[i] in f && f[j] in f;
        StrLeReflexive(name);
        assert RecordLe(f[i], f[j]);
      }
    }
    DateOrderTotalPreorder();
    SortOfSorted(f, DateOrder);
  }
}
