/**
 * `load_files` of code/coalesce.py: concatenate the extracted rows, drop the
 * missing values (9999), sort by (x, y, valid_time, fcst_time) and keep the
 * last row of each (x, y, valid_time) group, i.e. the most recent forecast
 * for every cell and valid time.
 *
 * The multi-column `sort_values` of pandas is stable, so rows that agree on
 * all four sort columns stay in input order; `SortRows` is therefore a
 * stable insertion sort. `Winner` is the independent, order-free reference:
 * the non-missing row of a key with the greatest `fcstTime`, the latest in
 * input order among equals.
 */
module Coalesce {
  import opened Wrappers
  import opened Observations

  /** `MISSING = 9999`: the value the forecast files use for "no data". */
  const Missing: real := 9999.0

  /** The `drop_duplicates` subset: one cell at one valid time. */
  datatype Key = Key(x: int, y: int, validTime: int)

  function KeyOf(o: Observation): Key {
    Key(o.x, o.y, o.validTime)
  }

  /** Lexicographic order on (x, y, valid_time). */
  predicate KeyLt(a: Key, b: Key) {
    a.x < b.x || (a.x == b.x && (a.y < b.y || (a.y == b.y && a.validTime < b.validTime)))
  }

  /** Strict lexicographic order on the sort columns (x, y, valid_time, fcst_time). */
  predicate SortLt(a: Observation, b: Observation) {
    KeyLt(KeyOf(a), KeyOf(b)) || (KeyOf(a) == KeyOf(b) && a.fcstTime < b.fcstTime)
  }

  predicate SortLe(a: Observation, b: Observation) {
    KeyLt(KeyOf(a), KeyOf(b)) || (KeyOf(a) == KeyOf(b) && a.fcstTime <= b.fcstTime)
  }

  predicate Sorted(s: seq<Observation>) {
    forall i, j :: 0 <= i < j < |s| ==> SortLe(s[i], s[j])
  }

  /** Strictly increasing keys: at most one row per (x, y, valid_time), in key order. */
  predicate StrictlyKeySorted(s: seq<Observation>) {
    forall i, j :: 0 <= i < j < |s| ==> KeyLt(KeyOf(s[i]), KeyOf(s[j]))
  }

  // ---------------------------------------------------------------------
  // The pipeline

  /** `df[df['vals'] != MISSING]`, keeping row order. */
  function DropMissing(rows: seq<Observation>): (r: seq<Observation>)
    ensures |r| <= |rows|
    ensures forall i :: 0 <= i < |r| ==> r[i] in rows && r[i].vals != Missing
    ensures forall i :: 0 <= i < |rows| && rows[i].vals != Missing ==> rows[i] in r
  {
    if rows == [] then []
    else
      var n := |rows| - 1;
      var init := DropMissing(rows[..n]);
      assert forall i :: 0 <= i < n ==> rows[..n][i] == rows[i];
      if rows[n].vals == Missing then init else init + [rows[n]]
  }

  /** The mask keeps row order: filtering a concatenation filters each part in turn. */
  lemma {:induction false} DropMissingAppend(a: seq<Observation>, b: seq<Observation>)
    ensures DropMissing(a + b) == DropMissing(a) + DropMissing(b)
  {
    if b == [] {
      assert a + b == a;
    } else {
      var n := |b| - 1;
      var t := if b[n].vals == Missing then [] else [b[n]];
      calc {
        DropMissing(a + b);
      == { assert a + b == (a + b[..n]) + [b[n]]; DropMissingSnoc(a + b[..n], b[n]); }
        DropMissing(a + b[..n]) + t;
      == { DropMissingAppend(a, b[..n]); }
        (DropMissing(a) + DropMissing(b[..n])) + t;
      ==
        DropMissing(a) + (DropMissing(b[..n]) + t);
      == { assert b == b[..n] + [b[n]]; DropMissingSnoc(b[..n], b[n]); }
        DropMissing(a) + DropMissing(b);
      }
    }
  }

  /** Each non-9999 row is kept as many times as it occurs, and a 9999 row not at all. */
  lemma {:induction false} DropMissingCounts(rows: seq<Observation>, o: Observation)
    ensures multiset(DropMissing(rows))[o] == if o.vals == Missing then 0 else multiset(rows)[o]
  {
    if rows != [] {
      var n := |rows| - 1;
      DropMissingCounts(rows[..n], o);
      assert rows == rows[..n] + [rows[n]];
      DropMissingSnoc(rows[..n], rows[n]);
    }
  }

  lemma DropMissingSnoc(s: seq<Observation>, o: Observation)
    ensures DropMissing(s + [o]) == if o.vals == Missing then DropMissing(s) else DropMissing(s) + [o]
  {
    assert (s + [o])[..|s|] == s;
  }

  /** Places `o` after every row of `sorted` that does not sort strictly after it. */
  function InsertRow(sorted: seq<Observation>, o: Observation): (r: seq<Observation>)
    ensures |r| == |sorted| + 1
  {
    if sorted == [] then [o]
    else if SortLt(o, sorted[0]) then [o] + sorted
    else [sorted[0]] + InsertRow(sorted[1..], o)
  }

  /** `sort_values(['x', 'y', 'valid_time', 'fcst_time'])`, stable. */
  function SortRows(rows: seq<Observation>): (r: seq<Observation>)
    ensures |r| == |rows|
  {
    if rows == [] then [] else InsertRow(SortRows(rows[..|rows| - 1]), rows[|rows| - 1])
  }

  /** The keys occurring in `s`. */
  function Keys(s: seq<Observation>): set<Key> {
    set i | 0 <= i < |s| :: KeyOf(s[i])
  }

  /** `drop_duplicates(['x', 'y', 'valid_time'], keep='last')`: a row stays when no later row shares its key. */
  function DropDuplicatesKeepLast(s: seq<Observation>): (r: seq<Observation>)
    ensures |r| <= |s|
  {
    if s == [] then []
    else (if KeyOf(s[0]) in Keys(s[1..]) then [] else [s[0]]) + DropDuplicatesKeepLast(s[1..])
  }

  /**
   * The body of `load_files` after the concatenation; what it keeps is
   * stated by `CoalesceMeetsReference`.
   */
  function Coalesce(rows: seq<Observation>): (r: seq<Observation>)
    ensures |r| <= |rows|
  {
    DropDuplicatesKeepLast(SortRows(DropMissing(rows)))
  }

  function Concat(batches: seq<seq<Observation>>): seq<Observation> {
    if batches == [] then [] else Concat(batches[..|batches| - 1]) + batches[|batches| - 1]
  }

  datatype CoalesceError = NoObjectsToConcatenate   // pd.concat([]) raises ValueError

  /** `load_files`: one batch of rows per path, in path order. */
  function LoadFiles(batches: seq<seq<Observation>>): (r: Result<seq<Observation>, CoalesceError>)
    ensures r.Failure? <==> batches == []
  {
    if batches == [] then Failure(NoObjectsToConcatenate) else Success(Coalesce(Concat(batches)))
  }

  // ---------------------------------------------------------------------
  // The reference: the most recent forecast of a key

  /** A row that competes for key `k`: it has that key and a value. */
  predicate Candidate(o: Observation, k: Key) {
    KeyOf(o) == k && o.vals != Missing
  }

  /** Of two candidate rows for one key, the later forecast; on a tie the row seen later. */
  function Later(current: Option<Observation>, next: Option<Observation>): Option<Observation> {
    match next
    case None => current
    case Some(b) =>
      match current
      case None => next
      case Some(a) => if b.fcstTime >= a.fcstTime then next else current
  }

  /** The non-missing row of key `k` with the latest forecast time, the last one seen among equals. */
  function Winner(rows: seq<Observation>, k: Key): (r: Option<Observation>)
    ensures r.Some? ==> r.value in rows && Candidate(r.value, k)
  {
    if rows == [] then None
    else
      var o := rows[|rows| - 1];
      Later(Winner(rows[..|rows| - 1], k), if Candidate(o, k) then Some(o) else None)
  }

  /** The last row of `s` with key `k`. */
  function LastWithKey(s: seq<Observation>, k: Key): (r: Option<Observation>)
    ensures r.Some? ==> r.value in s && KeyOf(r.value) == k
  {
    if s == [] then None
    else
      match LastWithKey(s[1..], k)
      case Some(o) => Some(o)
      case None => if KeyOf(s[0]) == k then Some(s[0]) else None
  }

  // ---------------------------------------------------------------------
  // Sorting

  /** Inserting adds exactly `o`. */
  lemma {:induction false} InsertRowPermutes(sorted: seq<Observation>, o: Observation)
    ensures multiset(InsertRow(sorted, o)) == multiset(sorted) + multiset{o}
  {
    if sorted != [] && !SortLt(o, sorted[0]) {
      InsertRowPermutes(sorted[1..], o);
      assert sorted == [sorted[0]] + sorted[1..];
    }
  }

  /** Inserting into a sorted sequence keeps it sorted. */
  lemma {:induction false} InsertRowSorted(sorted: seq<Observation>, o: Observation)
    requires Sorted(sorted)
    ensures Sorted(InsertRow(sorted, o))
  {
    if sorted == [] {
    } else if SortLt(o, sorted[0]) {
      forall p | 0 <= p < |sorted| ensures SortLe(o, sorted[p]) {
        assert SortLe(sorted[0], sorted[p]);
      }
      PrependSorted(o, sorted);
    } else {
      InsertRowSorted(sorted[1..], o);
      HeadBelowInsert(sorted, o);
      PrependSorted(sorted[0], InsertRow(sorted[1..], o));
    }
  }

  lemma PrependSorted(h: Observation, s: seq<Observation>)
    requires Sorted(s) && forall p :: 0 <= p < |s| ==> SortLe(h, s[p])
    ensures Sorted([h] + s)
  {
    var r := [h] + s;
    forall i, j | 0 <= i < j < |r| ensures SortLe(r[i], r[j]) {
      if i > 0 {
        assert r[i] == s[i - 1] && r[j] == s[j - 1];
      }
    }
  }

  /** The head of a sorted sequence precedes everything inserted after it. */
  lemma HeadBelowInsert(sorted: seq<Observation>, o: Observation)
    requires Sorted(sorted) && sorted != [] && !SortLt(o, sorted[0])
    ensures forall p :: 0 <= p < |sorted| ==> SortLe(sorted[0], InsertRow(sorted[1..], o)[p])
  {
    var t := sorted[1..];
    InsertRowPermutes(t, o);
    var rt := InsertRow(t, o);
    forall p | 0 <= p < |rt| ensures SortLe(sorted[0], rt[p]) {
      assert rt[p] in multiset(rt);
      if rt[p] in t {
        var q :| 0 <= q < |t| && t[q] == rt[p];
        assert sorted[q + 1] == t[q];
      }
    }
  }

  /** `SortRows` sorts, and is a permutation of its input. */
  lemma {:induction false} SortRowsSorted(rows: seq<Observation>)
    ensures Sorted(SortRows(rows))
    ensures multiset(SortRows(rows)) == multiset(rows)
  {
    if rows != [] {
      var n := |rows| - 1;
      SortRowsSorted(rows[..n]);
      InsertRowSorted(SortRows(rows[..n]), rows[n]);
      InsertRowPermutes(SortRows(rows[..n]), rows[n]);
      assert rows == rows[..n] + [rows[n]];
    }
  }

  // ---------------------------------------------------------------------
  // The last row of a key

  lemma {:induction false} LastWithKeyPresent(s: seq<Observation>, k: Key)
    ensures LastWithKey(s, k).Some? <==> k in Keys(s)
    ensures LastWithKey(s, k).Some? ==> LastWithKey(s, k).value in s && KeyOf(LastWithKey(s, k).value) == k
  {
    if s != [] {
      LastWithKeyPresent(s[1..], k);
      assert Keys(s) == {KeyOf(s[0])} + Keys(s[1..]) by {
        assert forall i :: 1 <= i < |s| ==> s[i] == s[1..][i - 1];
        assert forall i :: 0 <= i < |s| - 1 ==> s[1..][i] == s[i + 1];
      }
    }
  }

  /**
   * In a sorted sequence, the last row of a key after inserting `o` is the
   * later of the previous last row and `o`: stability puts `o` after the
   * rows that sort equal to it.
   */
  lemma {:induction false} InsertRowLast(sorted: seq<Observation>, o: Observation, k: Key)
    requires Sorted(sorted)
    ensures LastWithKey(InsertRow(sorted, o), k) ==
      Later(LastWithKey(sorted, k), if KeyOf(o) == k then Some(o) else None)
  {
    if sorted == [] {
    } else if SortLt(o, sorted[0]) {
      assert InsertRow(sorted, o)[1..] == sorted;
      if KeyOf(o) == k && LastWithKey(sorted, k).Some? {
        LastWithKeyPresent(sorted, k);
        var a := LastWithKey(sorted, k).value;
        var q :| 0 <= q < |sorted| && sorted[q] == a;
        assert SortLe(sorted[0], sorted[q]);
      }
    } else {
      var h, t := sorted[0], sorted[1..];
      InsertRowLast(t, o, k);
      assert InsertRow(sorted, o)[1..] == InsertRow(t, o);
    }
  }

  /** Sorting the rows makes the last row of every key its most recent forecast. */
  lemma {:induction false} SortRowsLast(rows: seq<Observation>, k: Key)
    requires forall i :: 0 <= i < |rows| ==> rows[i].vals != Missing
    ensures LastWithKey(SortRows(rows), k) == Winner(rows, k)
  {
    if rows != [] {
      var n := |rows| - 1;
      SortRowsLast(rows[..n], k);
      SortRowsSorted(rows[..n]);
      InsertRowLast(SortRows(rows[..n]), rows[n], k);
    }
  }

  /** Dropping the missing rows does not change any key's most recent forecast. */
  lemma {:induction false} DropMissingWinner(rows: seq<Observation>, k: Key)
    ensures Winner(DropMissing(rows), k) == Winner(rows, k)
  {
    if rows != [] {
      var n := |rows| - 1;
      DropMissingWinner(rows[..n], k);
      var d := DropMissing(rows[..n]);
      if rows[n].vals != Missing {
        assert (d + [rows[n]])[..|d|] == d;
      }
    }
  }

  // ---------------------------------------------------------------------
  // Keeping the last row of each key

  /** Keeping the last duplicate leaves every key's last row in place. */
  lemma {:induction false} DropDuplicatesLast(s: seq<Observation>, k: Key)
    ensures LastWithKey(DropDuplicatesKeepLast(s), k) == LastWithKey(s, k)
  {
    if s != [] {
      var t := s[1..];
      DropDuplicatesLast(t, k);
      LastWithKeyPresent(t, k);
      var d := DropDuplicatesKeepLast(t);
      if KeyOf(s[0]) !in Keys(t) {
        assert DropDuplicatesKeepLast(s) == [s[0]] + d;
        assert ([s[0]] + d)[1..] == d;
      } else {
        assert DropDuplicatesKeepLast(s) == d;
        LastWithKeyPresent(t, KeyOf(s[0]));
      }
    }
  }

  /** What `drop_duplicates` keeps is a subsequence: sortedness survives, and every kept row is an input row. */
  lemma {:induction false} DropDuplicatesSubsequence(s: seq<Observation>)
    ensures forall i :: 0 <= i < |DropDuplicatesKeepLast(s)| ==> DropDuplicatesKeepLast(s)[i] in s
    ensures Sorted(s) ==> Sorted(DropDuplicatesKeepLast(s))
  {
    if s != [] {
      var t := s[1..];
      DropDuplicatesSubsequence(t);
      var d := DropDuplicatesKeepLast(t);
      var r := DropDuplicatesKeepLast(s);
      assert forall i :: 0 <= i < |d| ==> d[i] in s;
      if Sorted(s) {
        assert Sorted(t);
        forall p | 0 <= p < |d| ensures SortLe(s[0], d[p]) {
          var q :| 0 <= q < |t| && t[q] == d[p];
          assert s[q + 1] == t[q];
        }
        if KeyOf(s[0]) !in Keys(t) {
          PrependSorted(s[0], d);
        }
      }
    }
  }

  predicate KeysDistinct(r: seq<Observation>) {
    forall i, j :: 0 <= i < j < |r| ==> KeyOf(r[i]) != KeyOf(r[j])
  }

  /** After `drop_duplicates` no two rows share a key. */
  lemma {:induction false} DropDuplicatesKeysDistinct(s: seq<Observation>)
    ensures KeysDistinct(DropDuplicatesKeepLast(s))
  {
    if s != [] {
      var t := s[1..];
      DropDuplicatesKeysDistinct(t);
      var d := DropDuplicatesKeepLast(t);
      if KeyOf(s[0]) !in Keys(t) {
        KeptKeysOccur(t);
        var r := [s[0]] + d;
        assert DropDuplicatesKeepLast(s) == r;
        forall i, j | 0 <= i < j < |r| ensures KeyOf(r[i]) != KeyOf(r[j]) {
          assert r[j] == d[j - 1];
          if i > 0 {
            assert r[i] == d[i - 1];
            assert KeyOf(d[i - 1]) != KeyOf(d[j - 1]);
          } else {
            assert r[i] == s[0] && KeyOf(d[j - 1]) in Keys(t);
          }
        }
      } else {
        assert DropDuplicatesKeepLast(s) == d;
      }
    }
  }

  lemma KeptKeysOccur(t: seq<Observation>)
    ensures forall p :: 0 <= p < |DropDuplicatesKeepLast(t)| ==> KeyOf(DropDuplicatesKeepLast(t)[p]) in Keys(t)
  {
    DropDuplicatesSubsequence(t);
    var d := DropDuplicatesKeepLast(t);
    forall p | 0 <= p < |d| ensures KeyOf(d[p]) in Keys(t) {
      var q :| 0 <= q < |t| && t[q] == d[p];
    }
  }

  // ---------------------------------------------------------------------
  // What `load_files` computes

  lemma SortedDistinctStrict(s: seq<Observation>)
    requires Sorted(s) && KeysDistinct(s)
    ensures StrictlyKeySorted(s)
  {
    forall i, j | 0 <= i < j < |s| ensures KeyLt(KeyOf(s[i]), KeyOf(s[j])) {
      assert SortLe(s[i], s[j]) && KeyOf(s[i]) != KeyOf(s[j]);
    }
  }

  /**
   * The coalesced rows are in (x, y, valid_time) order with one row per
   * key, each an input row with a value that is not missing, and the row of
   * each key is the key's most recent forecast.
   */
  lemma {:induction false} CoalesceMeetsReference(rows: seq<Observation>)
    ensures StrictlyKeySorted(Coalesce(rows))
    ensures forall k :: LastWithKey(Coalesce(rows), k) == Winner(rows, k)
    ensures forall i :: 0 <= i < |Coalesce(rows)| ==> Coalesce(rows)[i] in rows && Coalesce(rows)[i].vals != Missing
  {
    var d := DropMissing(rows);
    var sorted := SortRows(d);
    SortRowsSorted(d);
    DropDuplicatesSubsequence(sorted);
    DropDuplicatesKeysDistinct(sorted);
    SortedDistinctStrict(Coalesce(rows));
    forall k ensures LastWithKey(Coalesce(rows), k) == Winner(rows, k) {
      DropDuplicatesLast(sorted, k);
      SortRowsLast(d, k);
      DropMissingWinner(rows, k);
    }
    forall i | 0 <= i < |Coalesce(rows)| ensures Coalesce(rows)[i] in rows && Coalesce(rows)[i].vals != Missing {
      var o := Coalesce(rows)[i];
      assert o in sorted;
      assert o in multiset(sorted);
    }
  }

  /** In a strictly key-sorted sequence the head is the only row of its key. */
  lemma StrictHead(s: seq<Observation>)
    requires StrictlyKeySorted(s) && s != []
    ensures LastWithKey(s[1..], KeyOf(s[0])) == None
    ensures LastWithKey(s, KeyOf(s[0])) == Some(s[0])
  {
    LastWithKeyPresent(s[1..], KeyOf(s[0]));
    assert forall q :: 0 <= q < |s[1..]| ==> s[1..][q] == s[q + 1];
  }

  /**
   * A strictly key-sorted sequence is determined by its last row of every
   * key: two such sequences that agree on every key are equal.
   */
  lemma {:induction false} KeyedSequencesEqual(s: seq<Observation>, t: seq<Observation>)
    requires StrictlyKeySorted(s) && StrictlyKeySorted(t)
    requires forall k :: LastWithKey(s, k) == LastWithKey(t, k)
    ensures s == t
  {
    if s == [] || t == [] {
      if s != [] {
        StrictHead(s);
      } else if t != [] {
        StrictHead(t);
      }
    } else {
      var h, g := s[0], t[0];
      StrictHead(s);
      StrictHead(t);
      LastWithKeyPresent(t, KeyOf(h));
      LastWithKeyPresent(s, KeyOf(g));
      var q :| 0 <= q < |t| && t[q] == h;
      var p :| 0 <= p < |s| && s[p] == g;
      assert h == g;
      forall k ensures LastWithKey(s[1..], k) == LastWithKey(t[1..], k) {
        if k != KeyOf(h) {
          assert LastWithKey(s, k) == LastWithKey(s[1..], k);
          assert LastWithKey(t, k) == LastWithKey(t[1..], k);
        }
      }
      assert StrictlyKeySorted(s[1..]) by {
        forall i, j | 0 <= i < j < |s[1..]| ensures KeyLt(KeyOf(s[1..][i]), KeyOf(s[1..][j])) {
          assert s[1..][i] == s[i + 1] && s[1..][j] == s[j + 1];
        }
      }
      assert StrictlyKeySorted(t[1..]) by {
        forall i, j | 0 <= i < j < |t[1..]| ensures KeyLt(KeyOf(t[1..][i]), KeyOf(t[1..][j])) {
          assert t[1..][i] == t[i + 1] && t[1..][j] == t[j + 1];
        }
      }
      KeyedSequencesEqual(s[1..], t[1..]);
      assert s == [h] + s[1..] && t == [g] + t[1..];
    }
  }

  // ---------------------------------------------------------------------
  // The reference, declaratively, and how it composes

  /**
   * Row `i` holds the most recent forecast for `k`: it competes, no
   * competitor has a later forecast time, and every competitor after it has
   * an earlier one.
   */
  predicate MostRecentAt(rows: seq<Observation>, k: Key, i: int)
    requires 0 <= i < |rows|
  {
    && Candidate(rows[i], k)
    && (forall j :: 0 <= j < |rows| && Candidate(rows[j], k) ==> rows[j].fcstTime <= rows[i].fcstTime)
    && (forall j :: i < j < |rows| && Candidate(rows[j], k) ==> rows[j].fcstTime < rows[i].fcstTime)
  }

  /**
   * `Winner` is the most recent forecast: None exactly when no row competes
   * for the key, and otherwise a row that holds the most recent forecast.
   */
  lemma {:induction false} WinnerIsMostRecent(rows: seq<Observation>, k: Key)
    ensures Winner(rows, k).None? <==> forall i :: 0 <= i < |rows| ==> !Candidate(rows[i], k)
    ensures Winner(rows, k).Some? ==>
      exists i :: 0 <= i < |rows| && rows[i] == Winner(rows, k).value && MostRecentAt(rows, k, i)
  {
    if rows != [] {
      var n := |rows| - 1;
      var init := rows[..n];
      var o := rows[n];
      var w := Winner(init, k);
      WinnerIsMostRecent(init, k);
      assert forall j :: 0 <= j < n ==> init[j] == rows[j];
      if Candidate(o, k) && (w.None? || o.fcstTime >= w.value.fcstTime) {
        assert Winner(rows, k) == Some(o);
        if w.Some? {
          var i :| 0 <= i < n && init[i] == w.value && MostRecentAt(init, k, i);
        }
        assert MostRecentAt(rows, k, n);
      } else {
        assert Winner(rows, k) == w;
        if w.Some? {
          var i :| 0 <= i < n && init[i] == w.value && MostRecentAt(init, k, i);
          assert MostRecentAt(rows, k, i);
        }
      }
    }
  }

  /** Of three candidates, taking the later pairwise does not depend on grouping. */
  lemma LaterAssociative(a: Option<Observation>, b: Option<Observation>, c: Option<Observation>)
    ensures Later(Later(a, b), c) == Later(a, Later(b, c))
  {
  }

  /** The winner of a concatenation is the later of the two parts' winners. */
  lemma {:induction false} WinnerAppend(a: seq<Observation>, b: seq<Observation>, k: Key)
    ensures Winner(a + b, k) == Later(Winner(a, k), Winner(b, k))
  {
    if b == [] {
      assert a + b == a;
    } else {
      var n := |b| - 1;
      WinnerAppend(a, b[..n], k);
      assert (a + b)[..|a + b| - 1] == a + b[..n];
      var o := b[n];
      LaterAssociative(Winner(a, k), Winner(b[..n], k), if Candidate(o, k) then Some(o) else None);
    }
  }

  lemma {:induction false} LastWithKeyAppend(s: seq<Observation>, o: Observation, k: Key)
    ensures LastWithKey(s + [o], k) == if KeyOf(o) == k then Some(o) else LastWithKey(s, k)
  {
    if s != [] {
      LastWithKeyAppend(s[1..], o, k);
      assert (s + [o])[1..] == s[1..] + [o];
    }
  }

  /** With one row per key and no missing values, the winner of a key is its row. */
  lemma {:induction false} WinnerOfDistinct(s: seq<Observation>, k: Key)
    requires KeysDistinct(s) && forall i :: 0 <= i < |s| ==> s[i].vals != Missing
    ensures Winner(s, k) == LastWithKey(s, k)
  {
    if s != [] {
      var n := |s| - 1;
      var init := s[..n];
      assert KeysDistinct(init) by {
        forall i, j | 0 <= i < j < n ensures KeyOf(init[i]) != KeyOf(init[j]) {
          assert init[i] == s[i] && init[j] == s[j];
        }
      }
      WinnerOfDistinct(init, k);
      LastWithKeyAppend(init, s[n], k);
      assert s == init + [s[n]];
      if KeyOf(s[n]) == k {
        LastWithKeyPresent(init, k);
      }
    }
  }

  /** Coalescing keeps every key's most recent forecast. */
  lemma CoalesceWinner(rows: seq<Observation>, k: Key)
    ensures Winner(Coalesce(rows), k) == Winner(rows, k)
  {
    CoalesceMeetsReference(rows);
    var sorted := SortRows(DropMissing(rows));
    DropDuplicatesKeysDistinct(sorted);
    WinnerOfDistinct(Coalesce(rows), k);
  }

  /** Coalescing coalesced rows changes nothing. */
  lemma CoalesceIdempotent(rows: seq<Observation>)
    ensures Coalesce(Coalesce(rows)) == Coalesce(rows)
  {
    var c := Coalesce(rows);
    CoalesceMeetsReference(rows);
    CoalesceMeetsReference(c);
    forall k ensures LastWithKey(Coalesce(c), k) == LastWithKey(c, k) {
      CoalesceWinner(rows, k);
    }
    KeyedSequencesEqual(Coalesce(c), c);
  }

  function MapCoalesce(batches: seq<seq<Observation>>): (r: seq<seq<Observation>>)
    ensures |r| == |batches| && forall i :: 0 <= i < |batches| ==> r[i] == Coalesce(batches[i])
  {
    seq(|batches|, i requires 0 <= i < |batches| => Coalesce(batches[i]))
  }

  /** One more batch is coalesced on its own, after the others. */
  lemma MapCoalesceSnoc(batches: seq<seq<Observation>>, b: seq<Observation>)
    ensures MapCoalesce(batches + [b]) == MapCoalesce(batches) + [Coalesce(b)]
  {
    assert forall i :: 0 <= i < |batches| ==> (batches + [b])[i] == batches[i];
  }

  lemma {:induction false} WinnerOfCoalescedBatches(batches: seq<seq<Observation>>, k: Key)
    ensures Winner(Concat(MapCoalesce(batches)), k) == Winner(Concat(batches), k)
  {
    if batches != [] {
      var n := |batches| - 1;
      WinnerOfCoalescedBatches(batches[..n], k);
      assert MapCoalesce(batches)[..n] == MapCoalesce(batches[..n]);
      WinnerAppend(Concat(MapCoalesce(batches[..n])), Coalesce(batches[n]), k);
      WinnerAppend(Concat(batches[..n]), batches[n], k);
      CoalesceWinner(batches[n], k);
    }
  }

  /**
   * Coalescing each batch first and then the concatenation of the results
   * gives the same rows as coalescing everything at once: this is why the
   * month-by-month pass followed by a final pass is exact.
   */
  lemma CoalesceInBatches(batches: seq<seq<Observation>>)
    ensures Coalesce(Concat(MapCoalesce(batches))) == Coalesce(Concat(batches))
  {
    var once := Coalesce(Concat(batches));
    var twice := Coalesce(Concat(MapCoalesce(batches)));
    CoalesceMeetsReference(Concat(batches));
    CoalesceMeetsReference(Concat(MapCoalesce(batches)));
    forall k ensures LastWithKey(twice, k) == LastWithKey(once, k) {
      WinnerOfCoalescedBatches(batches, k);
    }
    KeyedSequencesEqual(twice, once);
  }
}
