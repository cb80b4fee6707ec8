/**
 * The "Session Results" table: the display rows derived from the provider's
 * result records. For a race or sprint each row shows the finishing and grid
 * positions, positions gained or lost (annotated with the status of a driver
 * who did not finish) and the points; for qualifying it shows the position
 * and the three segment times.
 */
module Results {
  import opened Options
  import opened Decimal
  import opened LapTime

  datatype SessionKind = Race | Qualifying | Sprint

  /**
   * One provider result record. Missing cells (NaN / NaT) are None. Positions
   * are whole numbers; points are a float, since half points exist; times are
   * whole milliseconds.
   */
  datatype ResultRow = ResultRow(
    abbreviation: string,
    fullName: string,
    teamName: string,
    position: Option<int>,
    gridPosition: Option<int>,
    status: string,
    points: Option<real>,
    q1: Option<nat>,
    q2: Option<nat>,
    q3: Option<nat>)

  datatype RaceLine = RaceLine(
    position: string,
    name: string,
    team: string,
    gridPosition: string,
    gainedLost: string,
    status: string,
    points: int)

  datatype QualifyingLine = QualifyingLine(
    position: string,
    name: string,
    team: string,
    q1: string,
    q2: string,
    q3: string)

  datatype Table = RaceTable(raceLines: seq<RaceLine>) | QualifyingTable(qualifyingLines: seq<QualifyingLine>)

  const FinishedStatus: string := "Finished"

  /** `fillna(0)` on an integer-valued column. */
  function OrZero(v: Option<int>): int
  {
    if v.Some? then v.value else 0
  }

  /** `astype(int)` on a float: truncation toward zero. */
  function Truncate(x: real): (n: int)
    ensures -1.0 < x - n as real < 1.0
    ensures if x >= 0.0 then 0.0 <= n as real <= x else x <= n as real <= 0.0
  {
    if x >= 0.0 then x.Floor else -((-x).Floor)
  }

  /** `GridPosition - Position`: a missing operand makes the difference missing. */
  function Difference(r: ResultRow): Option<int>
  {
    if r.gridPosition.Some? && r.position.Some? then Some(r.gridPosition.value - r.position.value) else None
  }

  /** The "Positions Gained/Lost" cell. */
  function GainedLost(r: ResultRow): string
  {
    var shown := IntToString(OrZero(Difference(r)));
    if r.status != FinishedStatus then shown + " (" + r.status + ")" else shown
  }

  function ProjectRaceRow(r: ResultRow): RaceLine
  {
    RaceLine(
      IntToString(OrZero(r.position)),
      r.fullName,
      r.teamName,
      IntToString(OrZero(r.gridPosition)),
      GainedLost(r),
      r.status,
      Truncate(if r.points.Some? then r.points.value else 0.0))
  }

  function ProjectQualifyingRow(r: ResultRow): QualifyingLine
    requires r.position.Some?
  {
    QualifyingLine(
      IntToString(r.position.value),
      r.fullName,
      r.teamName,
      FormatLapTime(r.q1),
      FormatLapTime(r.q2),
      FormatLapTime(r.q3))
  }

  /**
   * The results table of a session. Qualifying positions are converted
   * without a fill, so one missing position makes the conversion fail and
   * no table is shown.
   */
  function ProjectResults(kind: SessionKind, rows: seq<ResultRow>): (t: Result<Table>)
    ensures kind != Qualifying ==> t.Success? && t.value.RaceTable? && |t.value.raceLines| == |rows|
    ensures kind == Qualifying ==>
      (t.Success? <==> forall i :: 0 <= i < |rows| ==> rows[i].position.Some?)
    ensures kind == Qualifying && t.Success? ==>
      t.value.QualifyingTable? && |t.value.qualifyingLines| == |rows|
  {
    match kind
    case Qualifying =>
      if forall i :: 0 <= i < |rows| ==> rows[i].position.Some? then
        Success(QualifyingTable(seq(|rows|, i requires 0 <= i < |rows| && rows[i].position.Some? =>
          ProjectQualifyingRow(rows[i]))))
      else Failure("Cannot convert non-finite values (NA or inf) to integer")
    case _ =>
      Success(RaceTable(seq(|rows|, i requires 0 <= i < |rows| => ProjectRaceRow(rows[i]))))
  }

  /**
   * Reads a gained/lost cell back: the signed difference and, when the
   * driver did not finish, the status in parentheses after a space.
   */
  function ParseGainedLost(s: string): Option<(int, Option<string>)>
  {
    match IndexOf(s, ' ')
    case None =>
      (match ParseInt(s)
       case None => None
       case Some(n) => Some((n, None)))
    case Some(i) =>
      var rest := s[i + 1..];
      if |rest| >= 2 && rest[0] == '(' && rest[|rest| - 1] == ')' then
        match ParseInt(s[..i])
        case None => None
        case Some(n) => Some((n, Some(rest[1..|rest| - 1])))
      else None
  }

  /** An integer rendering holds no space. */
  lemma NoSpaceInInt(n: int)
    ensures IndexOf(IntToString(n), ' ') == None
  {
    IntToStringRoundTrip(n);
  }

  /**
   * The gained/lost cell reads back as `Grid − Position` (0 when either is
   * missing), followed by the status exactly when the status is not
   * "Finished".
   */
  lemma GainedLostRoundTrip(r: ResultRow)
    ensures ParseGainedLost(GainedLost(r)) ==
      Some((OrZero(Difference(r)), if r.status == FinishedStatus then None else Some(r.status)))
  {
    var n := OrZero(Difference(r));
    var shown := IntToString(n);
    IntToStringRoundTrip(n);
    NoSpaceInInt(n);
    if r.status != FinishedStatus {
      var s := GainedLost(r);
      assert s == shown + [' '] + ("(" + r.status + ")");
      SplitAtFirst(shown, ' ', "(" + r.status + ")");
      GainedLostAt(s, shown, "(" + r.status + ")", n);
    }
  }

  /** ParseGainedLost on a cell whose first space has been located. */
  lemma GainedLostAt(s: string, shown: string, rest: string, n: int)
    requires IndexOf(s, ' ') == Some(|shown|)
    requires s[..|shown|] == shown && s[|shown| + 1..] == rest
    requires ParseInt(shown) == Some(n) && |rest| >= 2 && rest[0] == '(' && rest[|rest| - 1] == ')'
    ensures ParseGainedLost(s) == Some((n, Some(rest[1..|rest| - 1])))
  {
  }

  /**
   * A race or sprint row: the positions read back as the recorded ones with
   * a missing value shown as 0, gained/lost as above, and the points
   * truncated toward zero (0 when missing).
   */
  predicate RaceLineReadsBack(line: RaceLine, r: ResultRow)
  {
    && ParseInt(line.position) == Some(OrZero(r.position))
    && ParseInt(line.gridPosition) == Some(OrZero(r.gridPosition))
    && ParseGainedLost(line.gainedLost) ==
         Some((OrZero(Difference(r)), if r.status == FinishedStatus then None else Some(r.status)))
    && line.points == Truncate(if r.points.Some? then r.points.value else 0.0)
    && line.name == r.fullName && line.team == r.teamName && line.status == r.status
  }

  /**
   * A qualifying row: the position reads back as recorded and the three
   * segment times read back as the recorded times, a missing one as the
   * not-set marker.
   */
  predicate QualifyingLineReadsBack(line: QualifyingLine, r: ResultRow)
    requires r.position.Some?
  {
    && ParseInt(line.position) == Some(r.position.value)
    && ParseLapTime(line.q1) == Some(r.q1)
    && ParseLapTime(line.q2) == Some(r.q2)
    && ParseLapTime(line.q3) == Some(r.q3)
    && line.name == r.fullName && line.team == r.teamName
  }

  lemma RaceLineFaithful(r: ResultRow)
    ensures RaceLineReadsBack(ProjectRaceRow(r), r)
  {
    IntToStringRoundTrip(OrZero(r.position));
    IntToStringRoundTrip(OrZero(r.gridPosition));
    GainedLostRoundTrip(r);
  }

  lemma QualifyingLineFaithful(r: ResultRow)
    requires r.position.Some?
    ensures QualifyingLineReadsBack(ProjectQualifyingRow(r), r)
  {
    IntToStringRoundTrip(r.position.value);
    FormatRoundTrip(r.q1);
    FormatRoundTrip(r.q2);
    FormatRoundTrip(r.q3);
  }

  /** Every race or sprint result record gives one display row, in order, that reads back as it. */
  lemma RaceTableRows(kind: SessionKind, rows: seq<ResultRow>)
    requires kind != Qualifying
    ensures var lines := ProjectResults(kind, rows).value.raceLines;
      forall i :: 0 <= i < |rows| ==> RaceLineReadsBack(lines[i], rows[i])
  {
    var lines := ProjectResults(kind, rows).value.raceLines;
    forall i | 0 <= i < |rows| ensures RaceLineReadsBack(lines[i], rows[i]) {
      RaceLineFaithful(rows[i]);
    }
  }

  /** When every qualifying record has a position, each gives one display row, in order, that reads back as it. */
  lemma QualifyingTableRows(rows: seq<ResultRow>)
    requires forall i :: 0 <= i < |rows| ==> rows[i].position.Some?
    ensures var lines := ProjectResults(Qualifying, rows).value.qualifyingLines;
      forall i :: 0 <= i < |rows| ==> QualifyingLineReadsBack(lines[i], rows[i])
  {
    var lines := ProjectResults(Qualifying, rows).value.qualifyingLines;
    forall i | 0 <= i < |rows| ensures QualifyingLineReadsBack(lines[i], rows[i]) {
      QualifyingLineFaithful(rows[i]);
    }
  }

  /** A missing position, grid position or points value is shown as 0, never dropped. */
  lemma MissingShownAsZero(r: ResultRow)
    ensures r.position.None? ==> ProjectRaceRow(r).position == "0"
    ensures r.gridPosition.None? ==> ProjectRaceRow(r).gridPosition == "0"
    ensures r.points.None? ==> ProjectRaceRow(r).points == 0
    ensures r.position.None? || r.gridPosition.None? ==>
      OrZero(Difference(r)) == 0 && ParseGainedLost(ProjectRaceRow(r).gainedLost).Some? &&
      ParseGainedLost(ProjectRaceRow(r).gainedLost).value.0 == 0
  {
    GainedLostRoundTrip(r);
  }

  /** grid 3, finish 1 gains two places; grid 1, finish 1 gains none; a retirement is annotated. */
  lemma GainedLostScenarios()
    ensures GainedLost(ResultRow("A", "", "", Some(1), Some(3), "Finished", Some(25.0), None, None, None)) == "2"
    ensures GainedLost(ResultRow("B", "", "", Some(1), Some(1), "Finished", Some(25.0), None, None, None)) == "0"
    ensures GainedLost(ResultRow("C", "", "", None, Some(4), "Engine", None, None, None, None)) == "0 (Engine)"
  {
  }
}
