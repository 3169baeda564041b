/**
 * The booking history screens of the Android client (ui/history/Bookings.kt): the occupancy figures of a
 * booking card, the counts of the details screen, and the read-only seat map, which draws every row of
 * seats with an aisle gap in the middle.
 */
module BookingHistory {
  import opened Wrappers
  import opened Text
  import opened SeatLabels
  import opened ClientData

  /** The colours the seat map uses. */
  datatype Colour = GoldenYellow | NavyBlue | White | LightGrey | MutedText

  /** A cell of the read-only seat map: the aisle gap or a seat box with its label and colours. */
  datatype GridCell = AisleSpacer | SeatBox(seatLabel: string, background: Colour, textColour: Colour)

  /** The seat type the service gives priority seats. */
  const PrioritySeatType: string := "Priority"

  // ---- the read-only seat map ----

  /** The number of cells: every row has one more cell than seats, for the aisle. */
  function CellCount(rows: nat, cols: nat): nat {
    rows * (cols + 1)
  }

  /** The visual column of the aisle gap. */
  function AisleIndex(cols: nat): nat {
    cols / 2
  }

  /** The seat column a visual column other than the aisle shows. */
  function LogicalCol(visualCol: nat, cols: nat): (c: nat)
    requires visualCol <= cols && visualCol != AisleIndex(cols)
    ensures c < cols
  {
    if visualCol < AisleIndex(cols) then visualCol else visualCol - 1
  }

  /** The visual column showing a seat column. */
  function VisualCol(col: nat, cols: nat): nat {
    if col < AisleIndex(cols) then col else col + 1
  }

  /** `assignments.find { it.seatLabel == label }`. */
  function AssignmentAt(assignments: seq<SeatAssignment>, target: string): (found: Option<SeatAssignment>)
    ensures found.None? <==> forall k :: 0 <= k < |assignments| ==> assignments[k].seatLabel != target
    ensures found.Some? ==> exists k :: 0 <= k < |assignments| && assignments[k] == found.value &&
                                        found.value.seatLabel == target &&
                                        forall j :: 0 <= j < k ==> assignments[j].seatLabel != target
    decreases |assignments|
  {
    if assignments == [] then None
    else if assignments[0].seatLabel == target then Some(assignments[0])
    else
      var rest := AssignmentAt(assignments[1..], target);
      assert forall k :: 1 <= k < |assignments| ==> assignments[k] == assignments[1..][k - 1];
      rest
  }

  /** The box drawn for the seat with this label. */
  function SeatBoxFor(target: string, assignments: seq<SeatAssignment>): GridCell {
    var assignment := AssignmentAt(assignments, target);
    var isOccupied := assignment.Some?;
    var isPriority := assignment.Some? && assignment.value.seatType == PrioritySeatType;
    SeatBox(target,
            if isPriority then GoldenYellow else if isOccupied then NavyBlue else LightGrey,
            if isOccupied then (if isPriority then NavyBlue else White) else MutedText)
  }

  /** Cell `index` of `ReadOnlySeatGrid`. */
  function ReadOnlyCell(index: nat, cols: nat, assignments: seq<SeatAssignment>): GridCell
    requires cols <= MaxColumns
  {
    var visualCols := cols + 1;
    var visualCol := index % visualCols;
    var row := index / visualCols;
    if visualCol == AisleIndex(cols) then AisleSpacer
    else SeatBoxFor(SeatLabel(row, LogicalCol(visualCol, cols)), assignments)
  }

  /** Seat columns and the non-aisle visual columns correspond one to one. */
  lemma {:induction false} ColumnsCorrespond(col: nat, visualCol: nat, cols: nat)
    ensures col < cols ==>
      VisualCol(col, cols) <= cols && VisualCol(col, cols) != AisleIndex(cols) &&
      LogicalCol(VisualCol(col, cols), cols) == col
    ensures visualCol <= cols && visualCol != AisleIndex(cols) ==> VisualCol(LogicalCol(visualCol, cols), cols) == visualCol
  {
  }

  /** In every row exactly one cell, the one at visual column cols / 2, is the aisle gap. */
  lemma {:induction false} OneAislePerRow(row: nat, visualCol: nat, rows: nat, cols: nat, assignments: seq<SeatAssignment>)
    requires cols <= MaxColumns && row < rows && visualCol <= cols
    ensures row * (cols + 1) + visualCol < CellCount(rows, cols)
    ensures ReadOnlyCell(row * (cols + 1) + visualCol, cols, assignments).AisleSpacer? <==> visualCol == AisleIndex(cols)
  {
    CellIndex(row, visualCol, rows, cols + 1);
  }

  /** The label of every seat of the vehicle is drawn, in the cell of its row and visual column. */
  lemma {:induction false} LabelDrawnAt(row: nat, col: nat, rows: nat, cols: nat, assignments: seq<SeatAssignment>)
    requires cols <= MaxColumns && row < rows && col < cols
    ensures row * (cols + 1) + VisualCol(col, cols) < CellCount(rows, cols)
    ensures ReadOnlyCell(row * (cols + 1) + VisualCol(col, cols), cols, assignments) ==
      SeatBoxFor(SeatLabel(row, col), assignments)
  {
    var v := VisualCol(col, cols);
    CellIndex(row, v, rows, cols + 1);
    ColumnsCorrespond(col, v, cols);
  }

  /** No other cell of the grid draws that label. */
  lemma {:induction false} LabelDrawnOnlyThere(row: nat, col: nat, rows: nat, cols: nat,
                                               assignments: seq<SeatAssignment>, index: nat)
    requires cols <= MaxColumns && row < rows && col < cols
    requires index < CellCount(rows, cols)
    requires ReadOnlyCell(index, cols, assignments).SeatBox?
    requires ReadOnlyCell(index, cols, assignments).seatLabel == SeatLabel(row, col)
    ensures index == row * (cols + 1) + VisualCol(col, cols)
  {
    IndexCell(index, rows, cols + 1);
    var r, vc := index / (cols + 1), index % (cols + 1);
    assert vc != AisleIndex(cols);
    SeatLabelInjective(r, LogicalCol(vc, cols), row, col);
    ColumnsCorrespond(col, vc, cols);
    CellIndex(row, VisualCol(col, cols), rows, cols + 1);
  }

  /**
   * A seat box is occupied, that is not grey, exactly when some assignment has its label; it is golden
   * exactly when the first such assignment is a priority seat; and its text is white exactly for an occupied
   * seat that is not a priority one.
   */
  lemma {:induction false} SeatColours(target: string, assignments: seq<SeatAssignment>)
    ensures var box := SeatBoxFor(target, assignments);
      && box.seatLabel == target
      && (box.background != LightGrey <==> exists k :: 0 <= k < |assignments| && assignments[k].seatLabel == target)
      && (box.background == GoldenYellow <==>
            AssignmentAt(assignments, target).Some? && AssignmentAt(assignments, target).value.seatType == PrioritySeatType)
      && (box.background != LightGrey <==> box.textColour != MutedText)
      && (box.textColour == White <==> box.background == NavyBlue)
  {
  }

  // ---- the counts of the details screen ----

  /** `assignments.count { it.seatType == "Priority" }`. */
  function PriorityCount(assignments: seq<SeatAssignment>): (n: nat)
    ensures n <= |assignments|
    ensures n == |assignments| <==> forall k :: 0 <= k < |assignments| ==> assignments[k].seatType == PrioritySeatType
    decreases |assignments|
  {
    if assignments == [] then 0
    else
      var init := assignments[..|assignments| - 1];
      var rest := PriorityCount(init);
      assert forall k :: 0 <= k < |init| ==> init[k] == assignments[k];
      rest + (if assignments[|assignments| - 1].seatType == PrioritySeatType then 1 else 0)
  }

  /** `assignments.count { !it.groupId.isNullOrEmpty() && it.groupId != "GRP-001" }`. */
  function GroupCount(assignments: seq<SeatAssignment>): (n: nat)
    ensures n <= |assignments|
    ensures n == 0 <==> forall k :: 0 <= k < |assignments| ==> !IsRealGroup(assignments[k].groupId)
    decreases |assignments|
  {
    if assignments == [] then 0
    else
      var init := assignments[..|assignments| - 1];
      var rest := GroupCount(init);
      assert forall k :: 0 <= k < |init| ==> init[k] == assignments[k];
      rest + (if IsRealGroup(assignments[|assignments| - 1].groupId) then 1 else 0)
  }

  /** Both counts add up over a split of the assignments. */
  lemma {:induction false} CountsAppend(a: seq<SeatAssignment>, b: seq<SeatAssignment>)
    ensures PriorityCount(a + b) == PriorityCount(a) + PriorityCount(b)
    ensures GroupCount(a + b) == GroupCount(a) + GroupCount(b)
    decreases |b|
  {
    if b == [] {
      assert a + b == a;
    } else {
      var b' := b[..|b| - 1];
      CountsAppend(a, b');
      assert (a + b)[..|a + b| - 1] == a + b';
      assert (a + b)[|a + b| - 1] == b[|b| - 1];
    }
  }

  // ---- the booking card ----

  /** `totalSeats = rows * cols`. */
  function TotalSeats(v: VehicleReq): int {
    v.rows * v.cols
  }

  /** `occupancyRate`, with the float division taken exactly. */
  function OccupancyRate(b: BookingHistoryItem): real {
    var totalSeats := TotalSeats(b.vehicle);
    if totalSeats > 0 then (|b.assignments| as real) / (totalSeats as real) else 0.0
  }

  /** The status chip reads "FULL" above 90 % occupancy. */
  predicate ShowsFull(b: BookingHistoryItem) {
    OccupancyRate(b) > 0.9
  }

  /** The occupancy bar turns golden above 80 % occupancy. */
  predicate BarGolden(b: BookingHistoryItem) {
    OccupancyRate(b) > 0.8
  }

  /** Scaling both sides by a positive factor keeps a strict comparison. */
  lemma {:induction false} ScaleStrict(x: real, y: real, t: real)
    requires t > 0.0
    ensures x > y <==> x * t > y * t
  {
    if x > y {
      assert (x - y) * t > 0.0;
    } else {
      assert (y - x) * t >= 0.0;
    }
  }

  /** A ratio of counts exceeds p / q exactly when the cross products say so. */
  lemma {:induction false} RatioAbove(occ: nat, total: nat, p: nat, q: nat)
    requires total > 0 && q > 0
    ensures (occ as real) / (total as real) > (p as real) / (q as real) <==> occ * q > p * total
  {
    var r, th := (occ as real) / (total as real), (p as real) / (q as real);
    var t := (total as real) * (q as real);
    assert r * (total as real) == occ as real;
    assert th * (q as real) == p as real;
    assert r * t == (r * (total as real)) * (q as real);
    assert th * t == (th * (q as real)) * (total as real);
    assert (occ * q) as real == (occ as real) * (q as real);
    assert (p * total) as real == (p as real) * (total as real);
    ScaleStrict(r, th, t);
  }

  /**
   * The occupancy rate is 0 for a vehicle without seats and never negative; for a vehicle with seats, the
   * card shows FULL exactly when more than nine in ten seats are taken, and a golden bar exactly when more than
   * four in five are, so a FULL card always has a golden bar.
   */
  lemma {:induction false} OccupancyThresholds(b: BookingHistoryItem)
    ensures OccupancyRate(b) >= 0.0
    ensures TotalSeats(b.vehicle) <= 0 ==> OccupancyRate(b) == 0.0 && !ShowsFull(b) && !BarGolden(b)
    ensures TotalSeats(b.vehicle) > 0 ==>
      (ShowsFull(b) <==> 10 * |b.assignments| > 9 * TotalSeats(b.vehicle)) &&
      (BarGolden(b) <==> 5 * |b.assignments| > 4 * TotalSeats(b.vehicle))
    ensures ShowsFull(b) ==> BarGolden(b)
  {
    var t := TotalSeats(b.vehicle);
    if t > 0 {
      assert 0.9 == (9 as real) / (10 as real) && 0.8 == (4 as real) / (5 as real);
      RatioAbove(|b.assignments|, t, 9, 10);
      RatioAbove(|b.assignments|, t, 4, 5);
      RatioAbove(|b.assignments|, t, 0, 1);
    }
  }

  /** The trip line of a booking card. */
  function TripLine(tripId: string): string {
    "Trip #" + AsciiUpper(TakeLast(tripId, 6))
  }

  /** The trip line shows the last six characters of the trip id, upper-cased, or all of a shorter id. */
  lemma {:induction false} TripLineShowsSuffix(tripId: string)
    ensures var n := if |tripId| < 6 then |tripId| else 6;
      && |TripLine(tripId)| == 6 + n
      && StartsWith(TripLine(tripId), "Trip #")
      && forall k :: 6 <= k < 6 + n ==> TripLine(tripId)[k] == UpperChar(tripId[|tripId| - n + (k - 6)])
  {
    var n := if |tripId| < 6 then |tripId| else 6;
    var tail := TakeLast(tripId, 6);
    TakeLastAt(tripId, 6);
    var upper := AsciiUpper(tail);
    var line := "Trip #" + upper;
    PrefixedAt("Trip #", upper);
    assert TripLine(tripId) == line;
    forall k | 6 <= k < 6 + n
      ensures line[k] == UpperChar(tripId[|tripId| - n + (k - 6)])
    {
      assert line[k] == upper[k - 6] == UpperChar(tail[k - 6]);
    }
  }

  /** `TakeLast(s, n)` holds the last `n` characters of `s`, or all of a shorter `s`. */
  lemma {:induction false} TakeLastAt(s: string, n: nat)
    ensures var m := if |s| < n then |s| else n;
      && |TakeLast(s, n)| == m
      && forall j :: 0 <= j < m ==> TakeLast(s, n)[j] == s[|s| - m + j]
  {
  }

  /** The characters of `prefix + body` past the prefix are those of `body`. */
  lemma {:induction false} PrefixedAt(prefix: string, body: string)
    ensures |prefix + body| == |prefix| + |body|
    ensures StartsWith(prefix + body, prefix)
    ensures forall k :: |prefix| <= k < |prefix| + |body| ==> (prefix + body)[k] == body[k - |prefix|]
  {
    assert (prefix + body)[..|prefix|] == prefix;
  }
}
