/**
 * The bars of the tyre-strategy chart. Drivers are taken in finishing order;
 * each driver's stints become horizontal bars laid end to end from lap 0, and
 * a compound is listed in the legend only by the first bar drawn in it.
 */
module StintBars {
  import opened Stints
  import opened Sequences

  /** One horizontal bar (one `go.Bar` trace): its row, compound, colour, extent and legend flag. */
  datatype Bar = Bar(driver: string, compound: string, color: string, base: nat, length: nat, showLegend: bool)

  // ---------------------------------------------------------------------------
  // The chart as a function of the finishing order and the grouped stints.

  /** The rows drawn, in drawing order: each driver's stints, driver after driver. */
  function Plan(order: seq<string>, stints: seq<StintRow>): seq<StintRow>
  {
    if order == [] then [] else Plan(order[..|order| - 1], stints) + DriverStints(stints, order[|order| - 1])
  }

  /** Where each of one driver's stints starts: the laps of that driver's stints before it. */
  function Starts(rows: seq<StintRow>): (s: seq<nat>)
    ensures |s| == |rows|
  {
    seq(|rows|, i requires 0 <= i < |rows| => TotalLength(rows[..i]))
  }

  /** The base of every bar of the plan. */
  function Bases(order: seq<string>, stints: seq<StintRow>): (b: seq<nat>)
    ensures |b| == |Plan(order, stints)|
  {
    if order == [] then [] else Bases(order[..|order| - 1], stints) + Starts(DriverStints(stints, order[|order| - 1]))
  }

  /** The compounds of some rows. */
  function CompoundsOf(rows: seq<StintRow>): set<string>
  {
    set r | r in rows :: r.compound
  }

  /** Rows drawn at the given bases; a bar shows in the legend when no earlier row has its compound. */
  function Draw(plan: seq<StintRow>, bases: seq<nat>, compoundColor: string -> string): (bars: seq<Bar>)
    requires |bases| == |plan|
    ensures |bars| == |plan|
  {
    seq(|plan|, k requires 0 <= k < |plan| =>
      Bar(plan[k].driver, plan[k].compound, compoundColor(plan[k].compound), bases[k], plan[k].stintLength,
          plan[k].compound !in CompoundsOf(plan[..k])))
  }

  function Layout(order: seq<string>, stints: seq<StintRow>, compoundColor: string -> string): seq<Bar>
  {
    Draw(Plan(order, stints), Bases(order, stints), compoundColor)
  }

  // ---------------------------------------------------------------------------
  // Small facts the drawing loop steps with.

  lemma CompoundsStep(plan: seq<StintRow>, r: StintRow)
    ensures CompoundsOf(plan + [r]) == CompoundsOf(plan) + {r.compound}
  {
    assert (plan + [r])[..|plan|] == plan;
  }

  lemma TotalStep(rows: seq<StintRow>, j: int)
    requires 0 <= j < |rows|
    ensures TotalLength(rows[..j + 1]) == TotalLength(rows[..j]) + rows[j].stintLength
  {
    PrefixExtend(rows, j);
    TotalLengthAppend(rows[..j], [rows[j]]);
    assert [rows[j]][1..] == [];
  }

  lemma DrawStep(plan: seq<StintRow>, bases: seq<nat>, r: StintRow, x: nat, compoundColor: string -> string)
    requires |bases| == |plan|
    ensures Draw(plan + [r], bases + [x], compoundColor)
      == Draw(plan, bases, compoundColor) + [Bar(r.driver, r.compound, compoundColor(r.compound), x, r.stintLength, r.compound !in CompoundsOf(plan))]
  {
    var p := plan + [r];
    assert p[..|plan|] == plan;
    forall k | 0 <= k < |plan| ensures p[..k] == plan[..k] {
    }
  }

  /** Drawing one more of a driver's stints adds its bar, where the driver's previous stint ended. */
  lemma BarStep(plan: seq<StintRow>, bases: seq<nat>, rows: seq<StintRow>, j: int, compoundColor: string -> string)
    requires |bases| == |plan| && 0 <= j < |rows|
    ensures Draw(plan + rows[..j + 1], bases + Starts(rows)[..j + 1], compoundColor)
      == Draw(plan + rows[..j], bases + Starts(rows)[..j], compoundColor)
         + [Bar(rows[j].driver, rows[j].compound, compoundColor(rows[j].compound), TotalLength(rows[..j]), rows[j].stintLength,
                rows[j].compound !in CompoundsOf(plan + rows[..j]))]
    ensures CompoundsOf(plan + rows[..j + 1]) == CompoundsOf(plan + rows[..j]) + {rows[j].compound}
    ensures TotalLength(rows[..j + 1]) == TotalLength(rows[..j]) + rows[j].stintLength
  {
    PrefixExtend(rows, j);
    PrefixExtend(Starts(rows), j);
    assert plan + rows[..j + 1] == (plan + rows[..j]) + [rows[j]];
    assert bases + Starts(rows)[..j + 1] == (bases + Starts(rows)[..j]) + [TotalLength(rows[..j])];
    DrawStep(plan + rows[..j], bases + Starts(rows)[..j], rows[j], TotalLength(rows[..j]), compoundColor);
    CompoundsStep(plan + rows[..j], rows[j]);
    TotalStep(rows, j);
  }

  /** One more driver appends that driver's stints to the plan and their starts to the bases. */
  lemma PlanStep(order: seq<string>, i: int, stints: seq<StintRow>)
    requires 0 <= i < |order|
    ensures Plan(order[..i + 1], stints) == Plan(order[..i], stints) + DriverStints(stints, order[i])
    ensures Bases(order[..i + 1], stints) == Bases(order[..i], stints) + Starts(DriverStints(stints, order[i]))
  {
    assert order[..i + 1][..i] == order[..i];
  }

  // ---------------------------------------------------------------------------
  // The drawing loop.

  /**
   * The tyre-strategy tab: group the laps into stints, then for each driver of
   * the finishing order draw that driver's stints end to end from lap 0,
   * listing a compound in the legend the first time it is drawn.
   */
  method LayoutBars(order: seq<string>, laps: seq<Lap>, compoundColor: string -> string) returns (bars: seq<Bar>)
    ensures bars == Layout(order, GroupStints(laps), compoundColor)
  {
    var stints := GroupStints(laps);
    var compoundsInLegend: set<string> := {};
    bars := [];
    for i := 0 to |order|
      invariant bars == Layout(order[..i], stints, compoundColor)
      invariant compoundsInLegend == CompoundsOf(Plan(order[..i], stints))
    {
      var driver := order[i];
      var driverStints := DriverStints(stints, driver);
      DriverStintsMembers(stints, driver);
      ghost var plan, bases := Plan(order[..i], stints), Bases(order[..i], stints);
      assert plan + driverStints[..0] == plan && bases + Starts(driverStints)[..0] == bases;
      var previousStintEnd := 0;
      for j := 0 to |driverStints|
        invariant bars == Draw(plan + driverStints[..j], bases + Starts(driverStints)[..j], compoundColor)
        invariant compoundsInLegend == CompoundsOf(plan + driverStints[..j])
        invariant previousStintEnd == TotalLength(driverStints[..j])
      {
        var row := driverStints[j];
        assert row in driverStints;
        var compoundColour := compoundColor(row.compound);
        var showLegend := row.compound !in compoundsInLegend;
        compoundsInLegend := compoundsInLegend + {row.compound};
        BarStep(plan, bases, driverStints, j, compoundColor);
        bars := bars + [Bar(driver, row.compound, compoundColour, previousStintEnd, row.stintLength, showLegend)];
        previousStintEnd := previousStintEnd + row.stintLength;
      }
      assert driverStints[..|driverStints|] == driverStints;
      assert Starts(driverStints)[..|driverStints|] == Starts(driverStints);
      PlanStep(order, i, stints);
    }
    assert order[..|order|] == order;
  }

  // ---------------------------------------------------------------------------
  // What the chart shows.

  lemma {:induction false} CompoundsMembers(rows: seq<StintRow>, c: string)
    ensures c in CompoundsOf(rows) <==> exists j :: 0 <= j < |rows| && rows[j].compound == c
  {
    if rows != [] {
      var init := rows[..|rows| - 1];
      CompoundsMembers(init, c);
      assert forall j :: 0 <= j < |init| ==> init[j] == rows[j];
    }
  }

  lemma DrawLegend(plan: seq<StintRow>, bases: seq<nat>, compoundColor: string -> string, k: int)
    requires |bases| == |plan| && 0 <= k < |plan|
    ensures var bars := Draw(plan, bases, compoundColor);
      bars[k].showLegend <==> forall j :: 0 <= j < k ==> bars[j].compound != bars[k].compound
  {
    var bars := Draw(plan, bases, compoundColor);
    CompoundsMembers(plan[..k], plan[k].compound);
    forall j | 0 <= j < k ensures plan[..k][j].compound == bars[j].compound {
    }
  }

  /** A bar is in the legend exactly when no earlier bar has its compound. */
  lemma LegendFirst(order: seq<string>, stints: seq<StintRow>, compoundColor: string -> string, k: int)
    requires 0 <= k < |Layout(order, stints, compoundColor)|
    ensures var bars := Layout(order, stints, compoundColor);
      bars[k].showLegend <==> forall j :: 0 <= j < k ==> bars[j].compound != bars[k].compound
  {
    DrawLegend(Plan(order, stints), Bases(order, stints), compoundColor, k);
  }

  /** Each compound drawn is in the legend once: by one bar, the first of that compound. */
  lemma {:induction false} LegendOnce(order: seq<string>, stints: seq<StintRow>, compoundColor: string -> string, k: int)
    requires 0 <= k < |Layout(order, stints, compoundColor)|
    ensures var bars := Layout(order, stints, compoundColor);
      exists j :: 0 <= j <= k && bars[j].showLegend && bars[j].compound == bars[k].compound
    ensures var bars := Layout(order, stints, compoundColor);
      forall j :: 0 <= j < k && bars[j].showLegend && bars[k].showLegend ==> bars[j].compound != bars[k].compound
  {
    var bars := Layout(order, stints, compoundColor);
    LegendFirst(order, stints, compoundColor, k);
    if !bars[k].showLegend {
      var j :| 0 <= j < k && bars[j].compound == bars[k].compound;
      LegendOnce(order, stints, compoundColor, j);
    }
  }

  /** The plan for the first n drivers begins the whole plan, and so do its bases. */
  lemma {:induction false} PlanPrefix(order: seq<string>, n: int, stints: seq<StintRow>)
    requires 0 <= n <= |order|
    ensures Plan(order[..n], stints) <= Plan(order, stints)
    ensures Bases(order[..n], stints) <= Bases(order, stints)
  {
    if n < |order| {
      var init := order[..|order| - 1];
      assert init[..n] == order[..n];
      PlanPrefix(init, n, stints);
    } else {
      assert order[..n] == order;
    }
  }

  /** Rows drawn after a prefix of the plan sit at the prefix's length on. */
  lemma DrawAfter(plan: seq<StintRow>, bases: seq<nat>, before: seq<StintRow>, beforeBases: seq<nat>,
                  rows: seq<StintRow>, starts: seq<nat>, compoundColor: string -> string, j: int)
    requires |bases| == |plan| && |beforeBases| == |before| && |starts| == |rows| && 0 <= j < |rows|
    requires before + rows <= plan && beforeBases + starts <= bases
    ensures |before| + j < |plan|
    ensures Draw(plan, bases, compoundColor)[|before| + j]
      == Bar(rows[j].driver, rows[j].compound, compoundColor(rows[j].compound), starts[j], rows[j].stintLength,
             rows[j].compound !in CompoundsOf(before + rows[..j]))
  {
    var k := |before| + j;
    assert (before + rows)[k] == rows[j];
    assert (beforeBases + starts)[k] == starts[j];
    assert plan[k] == rows[j] && bases[k] == starts[j];
    assert plan[..k] == (before + rows)[..k] == before + rows[..j];
  }

  /** The i-th driver's stints follow the earlier drivers' in the plan, and their starts follow in the bases. */
  lemma BlockPlace(order: seq<string>, stints: seq<StintRow>, i: int)
    requires 0 <= i < |order|
    ensures Plan(order[..i], stints) + DriverStints(stints, order[i]) <= Plan(order, stints)
    ensures Bases(order[..i], stints) + Starts(DriverStints(stints, order[i])) <= Bases(order, stints)
  {
    PlanStep(order, i, stints);
    PlanPrefix(order, i + 1, stints);
  }

  /** The j-th stint of the i-th driver is the bar after the earlier drivers' bars. */
  lemma BlockBar(order: seq<string>, stints: seq<StintRow>, compoundColor: string -> string, i: int, j: int,
                 rows: seq<StintRow>, k: int)
    requires 0 <= i < |order| && rows == DriverStints(stints, order[i]) && 0 <= j < |rows|
    requires k == |Plan(order[..i], stints)| + j
    ensures k < |Layout(order, stints, compoundColor)|
    ensures Layout(order, stints, compoundColor)[k]
      == Bar(rows[j].driver, rows[j].compound, compoundColor(rows[j].compound), Starts(rows)[j], rows[j].stintLength,
             rows[j].compound !in CompoundsOf(Plan(order[..i], stints) + rows[..j]))
  {
    BlockPlace(order, stints, i);
    DrawAfter(Plan(order, stints), Bases(order, stints), Plan(order[..i], stints), Bases(order[..i], stints),
              rows, Starts(rows), compoundColor, j);
  }

  /** A driver's first stint starts at lap 0, each next one where the one before ended, the last ends at the total. */
  lemma StartsAbut(rows: seq<StintRow>, j: int)
    requires 0 <= j < |rows|
    ensures j == 0 ==> Starts(rows)[j] == 0
    ensures j + 1 < |rows| ==> Starts(rows)[j + 1] == Starts(rows)[j] + rows[j].stintLength
    ensures j + 1 == |rows| ==> Starts(rows)[j] + rows[j].stintLength == TotalLength(rows)
  {
    assert rows[..0] == [];
    TotalStep(rows, j);
    if j + 1 == |rows| {
      assert rows[..j + 1] == rows;
    }
  }

  /** A driver's bars lie end to end from lap 0, the last ending at the driver's total. */
  lemma BlockExtent(order: seq<string>, stints: seq<StintRow>, compoundColor: string -> string, i: int, j: int,
                    rows: seq<StintRow>, bars: seq<Bar>, k: int)
    requires 0 <= i < |order| && rows == DriverStints(stints, order[i]) && 0 <= j < |rows|
    requires bars == Layout(order, stints, compoundColor)
    requires k == |Plan(order[..i], stints)| + j
    ensures k < |bars|
    ensures j == 0 ==> bars[k].base == 0
    ensures j + 1 < |rows| ==> k + 1 < |bars| && bars[k + 1].base == bars[k].base + bars[k].length
    ensures j + 1 == |rows| ==> bars[k].base + bars[k].length == TotalLength(rows)
  {
    BlockBar(order, stints, compoundColor, i, j, rows, k);
    StartsAbut(rows, j);
    if j + 1 < |rows| {
      BlockBar(order, stints, compoundColor, i, j + 1, rows, k + 1);
    }
  }

  /**
   * The bars of one driver in the chart of the session's laps: one per stint,
   * on the driver's row, as long as the laps of that stint, starting at lap 0
   * and each where the one before it ended, the last ending at the number of
   * laps the driver drove.
   */
  lemma StintChart(order: seq<string>, laps: seq<Lap>, compoundColor: string -> string, i: int, j: int,
                   rows: seq<StintRow>, bars: seq<Bar>, k: int)
    requires 0 <= i < |order| && rows == DriverStints(GroupStints(laps), order[i]) && 0 <= j < |rows|
    requires bars == Layout(order, GroupStints(laps), compoundColor)
    requires k == |Plan(order[..i], GroupStints(laps))| + j
    ensures k < |bars| && bars[k].driver == order[i] && bars[k].compound == rows[j].compound
    ensures bars[k].length == CountKey(laps, KeyOf(rows[j])) > 0
    ensures j == 0 ==> bars[k].base == 0
    ensures j + 1 < |rows| ==> k + 1 < |bars| && bars[k + 1].base == bars[k].base + bars[k].length
    ensures j + 1 == |rows| ==> bars[k].base + bars[k].length == DriverLapCount(laps, order[i])
  {
    var stints := GroupStints(laps);
    BlockBar(order, stints, compoundColor, i, j, rows, k);
    BlockExtent(order, stints, compoundColor, i, j, rows, bars, k);
    DriverStintsMembers(stints, order[i]);
    assert rows[j] in stints;
    var m :| 0 <= m < |stints| && stints[m] == rows[j];
    StintLengthCounts(laps, m);
    DriverTotal(laps, order[i]);
  }
}
