/**
 * Stint lengths of the tyre-strategy chart: the session's laps grouped by
 * (Driver, Stint, Compound) and counted, as `groupby(...).size()` does. The
 * groups come out in ascending key order, and a lap whose stint or compound
 * is missing belongs to no group (the groupby drops missing keys).
 */
module Stints {
  import opened Options

  /** The lap columns the chart reads. */
  datatype Lap = Lap(driver: string, stint: Option<int>, compound: Option<string>, lapNumber: Option<int>)

  datatype StintKey = StintKey(driver: string, stint: int, compound: string)

  /** One row of the grouped table: a key and its lap count. */
  datatype StintRow = StintRow(driver: string, stint: int, compound: string, stintLength: nat)

  function KeyOf(r: StintRow): StintKey
  {
    StintKey(r.driver, r.stint, r.compound)
  }

  /** The group a lap belongs to, if its stint and compound are both present. */
  function LapKey(l: Lap): Option<StintKey>
  {
    if l.stint.Some? && l.compound.Some? then Some(StintKey(l.driver, l.stint.value, l.compound.value)) else None
  }

  // ---------------------------------------------------------------------------
  // Key order: strings compare code point by code point, keys lexicographically.

  predicate StrLess(a: string, b: string)
  {
    |b| > 0 && (|a| == 0 || a[0] < b[0] || (a[0] == b[0] && StrLess(a[1..], b[1..])))
  }

  lemma {:induction false} StrLessIrreflexive(a: string)
    ensures !StrLess(a, a)
  {
    if |a| > 0 {
      StrLessIrreflexive(a[1..]);
    }
  }

  lemma {:induction false} StrLessTransitive(a: string, b: string, c: string)
    requires StrLess(a, b) && StrLess(b, c)
    ensures StrLess(a, c)
  {
    if |a| > 0 && a[0] == b[0] && b[0] == c[0] {
      StrLessTransitive(a[1..], b[1..], c[1..]);
    }
  }

  lemma {:induction false} StrLessTotal(a: string, b: string)
    requires a != b
    ensures StrLess(a, b) || StrLess(b, a)
  {
    if |a| > 0 && |b| > 0 && a[0] == b[0] {
      assert a == [a[0]] + a[1..] && b == [b[0]] + b[1..];
      StrLessTotal(a[1..], b[1..]);
    }
  }

  predicate KeyLess(x: StintKey, y: StintKey)
  {
    || StrLess(x.driver, y.driver)
    || (x.driver == y.driver && x.stint < y.stint)
    || (x.driver == y.driver && x.stint == y.stint && StrLess(x.compound, y.compound))
  }

  lemma KeyLessIrreflexive(x: StintKey)
    ensures !KeyLess(x, x)
  {
    StrLessIrreflexive(x.driver);
    StrLessIrreflexive(x.compound);
  }

  lemma KeyLessTransitive(x: StintKey, y: StintKey, z: StintKey)
    requires KeyLess(x, y) && KeyLess(y, z)
    ensures KeyLess(x, z)
  {
    if StrLess(x.driver, y.driver) && StrLess(y.driver, z.driver) {
      StrLessTransitive(x.driver, y.driver, z.driver);
    } else if x.driver == y.driver == z.driver && x.stint == y.stint == z.stint {
      StrLessTransitive(x.compound, y.compound, z.compound);
    }
  }

  lemma KeyLessTotal(x: StintKey, y: StintKey)
    requires x != y
    ensures KeyLess(x, y) || KeyLess(y, x)
  {
    if x.driver != y.driver {
      StrLessTotal(x.driver, y.driver);
    } else if x.stint == y.stint {
      StrLessTotal(x.compound, y.compound);
    }
  }

  // ---------------------------------------------------------------------------
  // The grouped table.

  /** Every row's key is above k. */
  ghost predicate AllAbove(k: StintKey, rows: seq<StintRow>)
  {
    forall i :: 0 <= i < |rows| ==> KeyLess(k, KeyOf(rows[i]))
  }

  /** Keys strictly ascending: the groupby's sorted, duplicate-free order. */
  ghost predicate Sorted(rows: seq<StintRow>)
  {
    |rows| <= 1 || (AllAbove(KeyOf(rows[0]), rows[1..]) && Sorted(rows[1..]))
  }

  /** Every lap count is positive: a group exists only for a key some lap has. */
  ghost predicate Positive(rows: seq<StintRow>)
  {
    forall i :: 0 <= i < |rows| ==> rows[i].stintLength > 0
  }

  function KeysOf(rows: seq<StintRow>): set<StintKey>
  {
    if rows == [] then {} else {KeyOf(rows[0])} + KeysOf(rows[1..])
  }

  /** The lap count of key k in the table (0 when k has no row). */
  function LengthOf(rows: seq<StintRow>, k: StintKey): nat
  {
    if rows == [] then 0 else if KeyOf(rows[0]) == k then rows[0].stintLength else LengthOf(rows[1..], k)
  }

  /** The number of laps in group k. */
  function CountKey(laps: seq<Lap>, k: StintKey): nat
  {
    if laps == [] then 0 else (if LapKey(laps[0]) == Some(k) then 1 else 0) + CountKey(laps[1..], k)
  }

  lemma AllAboveKeys(k: StintKey, rows: seq<StintRow>)
    ensures AllAbove(k, rows) <==> forall x :: x in KeysOf(rows) ==> KeyLess(k, x)
  {
    if rows != [] {
      AllAboveKeys(k, rows[1..]);
      assert forall i :: 1 <= i < |rows| ==> rows[i] == rows[1..][i - 1];
    }
  }

  lemma AllAboveLower(k: StintKey, j: StintKey, rows: seq<StintRow>)
    requires KeyLess(k, j) && AllAbove(j, rows)
    ensures AllAbove(k, rows)
  {
    forall i | 0 <= i < |rows| ensures KeyLess(k, KeyOf(rows[i])) {
      KeyLessTransitive(k, j, KeyOf(rows[i]));
    }
  }

  lemma LengthOfAbsent(rows: seq<StintRow>, x: StintKey)
    requires x !in KeysOf(rows)
    ensures LengthOf(rows, x) == 0
  {
  }

  lemma AboveAllAbsent(k: StintKey, rows: seq<StintRow>)
    requires AllAbove(k, rows)
    ensures k !in KeysOf(rows)
  {
    AllAboveKeys(k, rows);
    KeyLessIrreflexive(k);
  }

  /** Counts one more lap of key k into a sorted table. */
  function Insert(rows: seq<StintRow>, k: StintKey): (r: seq<StintRow>)
    requires Sorted(rows)
    ensures Sorted(r)
    ensures KeysOf(r) == KeysOf(rows) + {k}
    ensures Positive(rows) ==> Positive(r)
    ensures forall x :: LengthOf(r, x) == LengthOf(rows, x) + (if x == k then 1 else 0)
  {
    var row := StintRow(k.driver, k.stint, k.compound, 1);
    assert KeyOf(row) == k;
    if rows == [] then
      [row]
    else if KeyOf(rows[0]) == k then
      var r := [rows[0].(stintLength := rows[0].stintLength + 1)] + rows[1..];
      assert r[1..] == rows[1..];
      r
    else if KeyLess(k, KeyOf(rows[0])) then
      var r := [row] + rows;
      assert r[1..] == rows;
      AllAboveLower(k, KeyOf(rows[0]), rows[1..]);
      AboveAllAbsent(k, rows);
      LengthOfAbsent(rows, k);
      r
    else
      var rest := Insert(rows[1..], k);
      var r := [rows[0]] + rest;
      assert r[1..] == rest;
      KeyLessTotal(k, KeyOf(rows[0]));
      AllAboveKeys(KeyOf(rows[0]), rows[1..]);
      AllAboveKeys(KeyOf(rows[0]), rest);
      r
  }

  /** `laps.groupby(["Driver", "Stint", "Compound"]).size()`: one row per key, in key order. */
  function GroupStints(laps: seq<Lap>): (rows: seq<StintRow>)
    ensures Sorted(rows) && Positive(rows)
    ensures forall k :: LengthOf(rows, k) == CountKey(laps, k)
  {
    if laps == [] then []
    else
      var rest := GroupStints(laps[1..]);
      match LapKey(laps[0])
      case None => rest
      case Some(k) => Insert(rest, k)
  }

  lemma {:induction false} LengthOfPresent(rows: seq<StintRow>, k: StintKey)
    requires Positive(rows) && k in KeysOf(rows)
    ensures LengthOf(rows, k) > 0
  {
    if KeyOf(rows[0]) != k {
      assert Positive(rows[1..]) by {
        forall i | 0 <= i < |rows| - 1 ensures rows[1..][i].stintLength > 0 {
          assert rows[1..][i] == rows[i + 1];
        }
      }
      LengthOfPresent(rows[1..], k);
    }
  }

  /** In a sorted table a row's key finds that row. */
  lemma {:induction false} LengthOfRow(rows: seq<StintRow>, i: int)
    requires Sorted(rows) && 0 <= i < |rows|
    ensures LengthOf(rows, KeyOf(rows[i])) == rows[i].stintLength
  {
    if i > 0 {
      assert rows[1..][i - 1] == rows[i];
      KeyLessIrreflexive(KeyOf(rows[0]));
      LengthOfRow(rows[1..], i - 1);
    }
  }

  /** Every row of a sorted table sits below every later row. */
  lemma {:induction false} SortedIndices(rows: seq<StintRow>, i: int, j: int)
    requires Sorted(rows) && 0 <= i < j < |rows|
    ensures KeyLess(KeyOf(rows[i]), KeyOf(rows[j]))
  {
    assert rows[1..][j - 1] == rows[j];
    if i > 0 {
      assert rows[1..][i - 1] == rows[i];
      SortedIndices(rows[1..], i - 1, j - 1);
    }
  }

  /** Each row counts exactly the laps of its key, and no group is empty. */
  lemma StintLengthCounts(laps: seq<Lap>, i: int)
    requires 0 <= i < |GroupStints(laps)|
    ensures GroupStints(laps)[i].stintLength == CountKey(laps, KeyOf(GroupStints(laps)[i])) > 0
  {
    LengthOfRow(GroupStints(laps), i);
  }

  /** A key has a row exactly when some lap carries it. */
  lemma GroupKeys(laps: seq<Lap>, k: StintKey)
    ensures k in KeysOf(GroupStints(laps)) <==> CountKey(laps, k) > 0
  {
    if k in KeysOf(GroupStints(laps)) {
      LengthOfPresent(GroupStints(laps), k);
    } else {
      LengthOfAbsent(GroupStints(laps), k);
    }
  }

  // ---------------------------------------------------------------------------
  // One driver's stints.

  /** `stints.loc[stints["Driver"] == driver]`: the driver's rows, in table order. */
  function DriverStints(rows: seq<StintRow>, d: string): seq<StintRow>
  {
    if rows == [] then [] else (if rows[0].driver == d then [rows[0]] else []) + DriverStints(rows[1..], d)
  }

  /** The laps of the rows together. */
  function TotalLength(rows: seq<StintRow>): nat
  {
    if rows == [] then 0 else rows[0].stintLength + TotalLength(rows[1..])
  }

  /** The laps driver d drove with both a stint and a compound recorded. */
  function DriverLapCount(laps: seq<Lap>, d: string): nat
  {
    if laps == [] then 0 else (if laps[0].driver == d && LapKey(laps[0]).Some? then 1 else 0) + DriverLapCount(laps[1..], d)
  }

  lemma {:induction false} TotalLengthAppend(a: seq<StintRow>, b: seq<StintRow>)
    ensures TotalLength(a + b) == TotalLength(a) + TotalLength(b)
  {
    if a != [] {
      assert (a + b)[0] == a[0];
      assert (a + b)[1..] == a[1..] + b;
      TotalLengthAppend(a[1..], b);
    } else {
      assert a + b == b;
    }
  }

  lemma {:induction false} DriverStintsMembers(rows: seq<StintRow>, d: string)
    ensures forall r :: r in DriverStints(rows, d) <==> r in rows && r.driver == d
  {
    if rows != [] {
      DriverStintsMembers(rows[1..], d);
      assert rows == [rows[0]] + rows[1..];
    }
  }

  /** The filter keeps the table's order. */
  lemma {:induction false} DriverStintsSorted(rows: seq<StintRow>, d: string)
    requires Sorted(rows)
    ensures Sorted(DriverStints(rows, d))
  {
    if rows != [] {
      var rest := DriverStints(rows[1..], d);
      DriverStintsSorted(rows[1..], d);
      if rows[0].driver == d {
        DriverStintsMembers(rows[1..], d);
        assert ([rows[0]] + rest)[1..] == rest;
      } else {
        assert [] + rest == rest;
      }
    }
  }

  /** The filter and the lap total over a row in front of a table. */
  lemma DriverTotalCons(x: StintRow, rows: seq<StintRow>, d: string)
    ensures TotalLength(DriverStints([x] + rows, d)) == (if x.driver == d then x.stintLength else 0) + TotalLength(DriverStints(rows, d))
  {
    assert ([x] + rows)[1..] == rows;
    TotalLengthAppend(if x.driver == d then [x] else [], DriverStints(rows, d));
  }

  lemma {:induction false} InsertDriverTotal(rows: seq<StintRow>, k: StintKey, d: string)
    requires Sorted(rows)
    ensures TotalLength(DriverStints(Insert(rows, k), d)) == TotalLength(DriverStints(rows, d)) + (if k.driver == d then 1 else 0)
  {
    var r := Insert(rows, k);
    if rows == [] {
    } else if KeyOf(rows[0]) == k {
      assert r == [rows[0].(stintLength := rows[0].stintLength + 1)] + rows[1..];
      DriverTotalCons(r[0], rows[1..], d);
      DriverTotalCons(rows[0], rows[1..], d);
      assert rows == [rows[0]] + rows[1..];
    } else if KeyLess(k, KeyOf(rows[0])) {
      assert r == [StintRow(k.driver, k.stint, k.compound, 1)] + rows;
      DriverTotalCons(r[0], rows, d);
    } else {
      var rest := Insert(rows[1..], k);
      assert r == [rows[0]] + rest;
      DriverTotalCons(rows[0], rest, d);
      DriverTotalCons(rows[0], rows[1..], d);
      assert rows == [rows[0]] + rows[1..];
      InsertDriverTotal(rows[1..], k, d);
    }
  }

  /** A driver's stint lengths add up to the laps they drove. */
  lemma {:induction false} DriverTotal(laps: seq<Lap>, d: string)
    ensures TotalLength(DriverStints(GroupStints(laps), d)) == DriverLapCount(laps, d)
  {
    if laps != [] {
      DriverTotal(laps[1..], d);
      match LapKey(laps[0])
      case None =>
      case Some(k) => InsertDriverTotal(GroupStints(laps[1..]), k, d);
    }
  }

  lemma DriverRowsOrder(rows: seq<StintRow>, d: string, i: int, j: int)
    requires Sorted(rows) && 0 <= i < j < |DriverStints(rows, d)|
    ensures DriverStints(rows, d)[i].driver == DriverStints(rows, d)[j].driver == d
    ensures KeyLess(KeyOf(DriverStints(rows, d)[i]), KeyOf(DriverStints(rows, d)[j]))
  {
    var ds := DriverStints(rows, d);
    DriverStintsMembers(rows, d);
    assert ds[i] in ds && ds[j] in ds;
    DriverStintsSorted(rows, d);
    SortedIndices(ds, i, j);
  }

  /** A driver's stints come out by stint number, then compound. */
  lemma DriverStintOrder(laps: seq<Lap>, d: string, i: int, j: int)
    requires 0 <= i < j < |DriverStints(GroupStints(laps), d)|
    ensures var rows := DriverStints(GroupStints(laps), d);
      rows[i].driver == rows[j].driver == d &&
      (rows[i].stint < rows[j].stint || (rows[i].stint == rows[j].stint && StrLess(rows[i].compound, rows[j].compound)))
  {
    var table := GroupStints(laps);
    DriverRowsOrder(table, d, i, j);
    var x, y := DriverStints(table, d)[i], DriverStints(table, d)[j];
    if StrLess(x.driver, y.driver) {
      StrLessIrreflexive(x.driver);
    }
  }
}
