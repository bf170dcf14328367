/**
 * code/summarize.py: every coalesced row is put in a half-month bin of its
 * valid time, and the rows of each file are grouped by (x, y, half-month),
 * one group per combination present, each holding the values its mean and
 * standard deviation are taken over.
 */
module Summarize {
  import opened Calendar
  import opened Observations

  /**
   * `day / days_in_month <= .5`. For months of 28 to 31 days the quotient is
   * exactly 0.5 on the middle day and at least 1/62 away from it otherwise,
   * so the floating-point comparison agrees with this exact one.
   */
  predicate FirstHalf(day: int, daysInMonth: int)
    requires daysInMonth > 0
  {
    (day as real) / (daysInMonth as real) <= 0.5
  }

  /** The first half of a month is the days up to and including half its length. */
  lemma FirstHalfExactly(day: int, daysInMonth: int)
    requires daysInMonth > 0
    ensures FirstHalf(day, daysInMonth) <==> 2 * day <= daysInMonth
  {
    DivAtMostHalf(day as real, daysInMonth as real);
  }

  lemma DivAtMostHalf(x: real, d: real)
    requires d > 0.0
    ensures x / d <= 0.5 <==> 2.0 * x <= d
  {
    var q := x / d;
    assert q * d == x;
    if q <= 0.5 {
      assert (0.5 - q) * d >= 0.0;
    } else {
      assert (q - 0.5) * d > 0.0;
    }
  }

  /**
   * `2 * month - first_half`, the boolean counting as 1: bin 2m - 1 holds
   * the first half of month m and bin 2m its second half, so every bin lies
   * in 1..24.
   */
  function MonthHalf(d: Date): (r: int)
    requires ValidDate(d)
    ensures 1 <= r <= 24
    ensures r == 2 * d.month - 1 <==> 2 * d.day <= DaysInMonth(d.year, d.month)
    ensures r == 2 * d.month <==> 2 * d.day > DaysInMonth(d.year, d.month)
  {
    FirstHalfExactly(d.day, DaysInMonth(d.year, d.month));
    2 * d.month - (if FirstHalf(d.day, DaysInMonth(d.year, d.month)) then 1 else 0)
  }

  /** Within a year the bin never decreases as the date advances. */
  lemma MonthHalfMonotone(a: Date, b: Date)
    requires ValidDate(a) && ValidDate(b) && a.year == b.year
    requires a.month < b.month || (a.month == b.month && a.day <= b.day)
    ensures MonthHalf(a) <= MonthHalf(b)
  {
    FirstHalfExactly(a.day, DaysInMonth(a.year, a.month));
    FirstHalfExactly(b.day, DaysInMonth(b.year, b.month));
  }

  /** The bin of a row: the half of its valid time's UTC month, in 1..24. */
  function BinOf(o: Observation): (r: int)
    ensures var d := DateOfTimestamp(o.validTime);
      && 1 <= r <= 24
      && (r == 2 * d.month - 1 <==> 2 * d.day <= DaysInMonth(d.year, d.month))
      && (r == 2 * d.month <==> 2 * d.day > DaysInMonth(d.year, d.month))
  {
    MonthHalf(DateOfTimestamp(o.validTime))
  }

  // ---------------------------------------------------------------------
  // groupby(['x', 'y', 'month_half'])

  datatype BinKey = BinKey(x: int, y: int, monthHalf: int)

  /** A row after the bin columns are added: its group key and its value. */
  datatype BinnedRow = BinnedRow(key: BinKey, vals: real)

  /** The `month`, `first_half` and `month_half` columns added to a file's rows. */
  function AddBins(rows: seq<Observation>): (r: seq<BinnedRow>)
    ensures |r| == |rows|
  {
    seq(|rows|, i requires 0 <= i < |rows| => BinnedRow(BinKey(rows[i].x, rows[i].y, BinOf(rows[i])), rows[i].vals))
  }

  /** The order in which `groupby` lists its keys: by x, then y, then bin. */
  predicate KeyLess(a: BinKey, b: BinKey) {
    a.x < b.x || (a.x == b.x && (a.y < b.y || (a.y == b.y && a.monthHalf < b.monthHalf)))
  }

  /** One group: its key and the values of its rows, in row order. */
  datatype Group = Group(key: BinKey, vals: seq<real>)

  predicate StrictlyOrdered(gs: seq<Group>) {
    forall i, j :: 0 <= i < j < |gs| ==> KeyLess(gs[i].key, gs[j].key)
  }

  predicate NonEmptyGroups(gs: seq<Group>) {
    forall i :: 0 <= i < |gs| ==> gs[i].vals != []
  }

  /** The values of the rows with key `k`, in row order: what `groupby` collects for `k`. */
  function ValuesOf(rows: seq<BinnedRow>, k: BinKey): (r: seq<real>)
    ensures |r| <= |rows|
  {
    if rows == [] then []
    else
      var prev := ValuesOf(rows[..|rows| - 1], k);
      var o := rows[|rows| - 1];
      if o.key == k then prev + [o.vals] else prev
  }

  /** The values of group `k`, or none when there is no such group. */
  function Lookup(gs: seq<Group>, k: BinKey): seq<real> {
    if gs == [] then []
    else if gs[0].key == k then gs[0].vals
    else Lookup(gs[1..], k)
  }

  /** Add value `v` to group `k`, opening the group at its place in key order when it is new. */
  function AddToGroup(gs: seq<Group>, k: BinKey, v: real): seq<Group> {
    if gs == [] then [Group(k, [v])]
    else if gs[0].key == k then [Group(k, gs[0].vals + [v])] + gs[1..]
    else if KeyLess(k, gs[0].key) then [Group(k, [v])] + gs
    else [gs[0]] + AddToGroup(gs[1..], k, v)
  }

  /** The groups of a table's rows: in key order, none of them empty. */
  function GroupBy(rows: seq<BinnedRow>): (r: seq<Group>)
    ensures StrictlyOrdered(r) && NonEmptyGroups(r)
  {
    if rows == [] then []
    else
      var o := rows[|rows| - 1];
      var prev := GroupBy(rows[..|rows| - 1]);
      AddToGroupOrdered(prev, o.key, o.vals);
      AddToGroup(prev, o.key, o.vals)
  }

  lemma KeyLessTransitive(a: BinKey, b: BinKey, c: BinKey)
    requires KeyLess(a, b) && KeyLess(b, c)
    ensures KeyLess(a, c)
  {
  }

  /** A key below every key of an ordered list has no group in it. */
  lemma {:induction false} LookupBelow(gs: seq<Group>, k: BinKey)
    requires StrictlyOrdered(gs) && gs != [] && KeyLess(k, gs[0].key)
    ensures Lookup(gs, k) == []
  {
    if |gs| > 1 {
      KeyLessTransitive(k, gs[0].key, gs[1].key);
      LookupBelow(gs[1..], k);
    }
  }

  /** Adding a value keeps the groups ordered and non-empty, and the first key is `k` or the old first key. */
  lemma {:induction false} AddToGroupOrdered(gs: seq<Group>, k: BinKey, v: real)
    requires StrictlyOrdered(gs) && NonEmptyGroups(gs)
    ensures var r := AddToGroup(gs, k, v);
      StrictlyOrdered(r) && NonEmptyGroups(r) && r != []
      && (r[0].key == k || (gs != [] && r[0].key == gs[0].key))
  {
    if gs != [] && gs[0].key != k && !KeyLess(k, gs[0].key) {
      var tail := AddToGroup(gs[1..], k, v);
      AddToGroupOrdered(gs[1..], k, v);
      var r := [gs[0]] + tail;
      assert KeyLess(gs[0].key, tail[0].key);
      forall i, j | 0 <= i < j < |r| ensures KeyLess(r[i].key, r[j].key) {
        if i == 0 && j > 1 {
          KeyLessTransitive(gs[0].key, tail[0].key, tail[j - 1].key);
        }
      }
    } else if gs != [] && KeyLess(k, gs[0].key) {
      var r := [Group(k, [v])] + gs;
      forall i, j | 0 <= i < j < |r| ensures KeyLess(r[i].key, r[j].key) {
        if i == 0 && j > 1 {
          KeyLessTransitive(k, gs[0].key, gs[j - 1].key);
        }
      }
    }
  }

  /** Adding `v` to group `k` appends it to that group's values and leaves every other group as it was. */
  lemma {:induction false} AddToGroupLookup(gs: seq<Group>, k: BinKey, v: real, k2: BinKey)
    requires StrictlyOrdered(gs)
    ensures Lookup(AddToGroup(gs, k, v), k2) == if k2 == k then Lookup(gs, k) + [v] else Lookup(gs, k2)
  {
    if gs != [] {
      if gs[0].key == k {
      } else if KeyLess(k, gs[0].key) {
        LookupBelow(gs, k);
      } else {
        AddToGroupLookup(gs[1..], k, v, k2);
      }
    }
  }

  /**
   * `groupby` is exact: the groups come in key order, none is empty, and the
   * group of every key holds the values of precisely the rows with that key,
   * in row order.
   */
  lemma {:induction false} GroupByCollects(rows: seq<BinnedRow>)
    ensures StrictlyOrdered(GroupBy(rows)) && NonEmptyGroups(GroupBy(rows))
    ensures forall k :: Lookup(GroupBy(rows), k) == ValuesOf(rows, k)
  {
    if rows != [] {
      var init := rows[..|rows| - 1];
      var o := rows[|rows| - 1];
      GroupByCollects(init);
      forall k ensures Lookup(GroupBy(rows), k) == ValuesOf(rows, k) {
        AddToGroupLookup(GroupBy(init), o.key, o.vals, k);
      }
    }
  }

  /** In an ordered list the group of each listed key is found at its position. */
  lemma {:induction false} LookupAt(gs: seq<Group>, i: nat)
    requires StrictlyOrdered(gs) && i < |gs|
    ensures Lookup(gs, gs[i].key) == gs[i].vals
  {
    if i > 0 {
      assert KeyLess(gs[0].key, gs[i].key);
      LookupAt(gs[1..], i - 1);
    }
  }

  /** A key that no group carries looks up to nothing. */
  lemma {:induction false} LookupMissing(gs: seq<Group>, k: BinKey)
    requires forall i :: 0 <= i < |gs| ==> gs[i].key != k
    ensures Lookup(gs, k) == []
  {
    if gs != [] {
      LookupMissing(gs[1..], k);
    }
  }

  /** Some row carries key `k`. */
  predicate KeyPresent(rows: seq<BinnedRow>, k: BinKey) {
    exists i :: 0 <= i < |rows| && rows[i].key == k
  }

  lemma {:induction false} ValuesOfPresent(rows: seq<BinnedRow>, k: BinKey)
    ensures ValuesOf(rows, k) != [] <==> KeyPresent(rows, k)
  {
    if rows != [] {
      var n := |rows| - 1;
      var init := rows[..n];
      ValuesOfPresent(init, k);
      if rows[n].key == k {
        assert KeyPresent(rows, k);
      } else if KeyPresent(rows, k) {
        var i :| 0 <= i < |rows| && rows[i].key == k;
        assert init[i].key == k;
      }
    }
  }

  /** One group per distinct (x, y, bin) present in the rows, and no other. */
  lemma OneGroupPerKey(rows: seq<BinnedRow>, k: BinKey)
    ensures KeyPresent(rows, k) ==> exists i :: 0 <= i < |GroupBy(rows)| && GroupBy(rows)[i].key == k
    ensures (exists i :: 0 <= i < |GroupBy(rows)| && GroupBy(rows)[i].key == k) ==> KeyPresent(rows, k)
  {
    var gs := GroupBy(rows);
    GroupByCollects(rows);
    ValuesOfPresent(rows, k);
    if exists i :: 0 <= i < |gs| && gs[i].key == k {
      var i :| 0 <= i < |gs| && gs[i].key == k;
      LookupAt(gs, i);
      assert Lookup(gs, k) == ValuesOf(rows, k) && gs[i].vals != [];
      assert KeyPresent(rows, k) && GroupBy(rows)[i].key == k;
    } else {
      LookupMissing(gs, k);
      assert Lookup(gs, k) == ValuesOf(rows, k);
      assert !KeyPresent(rows, k);
    }
  }

  /**
   * The loop of `main` over the coalesced files: the bin columns are added
   * to each file's rows and its groups formed, in file order.
   */
  method SummarizeFiles(files: seq<seq<Observation>>) returns (summaries: seq<seq<Group>>)
    ensures |summaries| == |files|
    ensures forall i :: 0 <= i < |files| ==> StrictlyOrdered(summaries[i]) && NonEmptyGroups(summaries[i])
    ensures forall i, k :: 0 <= i < |files| ==> Lookup(summaries[i], k) == ValuesOf(AddBins(files[i]), k)
  {
    summaries := [];
    for i := 0 to |files|
      invariant |summaries| == i
      invariant forall j :: 0 <= j < i ==> StrictlyOrdered(summaries[j]) && NonEmptyGroups(summaries[j])
      invariant forall j, k :: 0 <= j < i ==> Lookup(summaries[j], k) == ValuesOf(AddBins(files[j]), k)
    {
      var df := AddBins(files[i]);
      var agg := GroupBy(df);
      GroupByCollects(df);
      summaries := summaries + [agg];
    }
  }
}
