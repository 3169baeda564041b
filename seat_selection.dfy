/**
 * The vehicle and seat-map screens of the Android client (ui/passengers/SeatSelectionScreen.kt): the
 * vehicle form that sets the layout and starts the allocation, and the seat map that shows who sits where.
 */
module SeatSelection {
  import opened Wrappers
  import opened Text
  import opened SeatLabels
  import opened ClientData
  import opened LayoutViewModels
  import opened PassengerViewModels

  // ---- the vehicle form ----

  /** The form's initial values. */
  const InitialType: string := "Bus"
  const InitialRows: string := "10"
  const InitialCols: string := "4"

  /** The dimensions used when a field does not parse. */
  const FallbackRows: int := 10
  const FallbackCols: int := 4

  /** `rowsInput.toIntOrNull() ?: 10`. */
  function RowsValue(rowsInput: string): int {
    ParseInt(rowsInput).GetOr(FallbackRows)
  }

  /** `colsInput.toIntOrNull() ?: 4`. */
  function ColsValue(colsInput: string): int {
    ParseInt(colsInput).GetOr(FallbackCols)
  }

  /**
   * On the digit strings the fields admit, a dimension is the number typed, or the fallback for an empty or
   * overlong field, and never negative; the initial fields give a 10-by-4 vehicle.
   */
  lemma {:induction false} DimensionsOfDigits(rowsInput: string, colsInput: string)
    requires AllDigits(rowsInput) && AllDigits(colsInput)
    ensures RowsValue(rowsInput) >= 0 && ColsValue(colsInput) >= 0
    ensures rowsInput == [] || ParseDigits(rowsInput) > IntMax ==> RowsValue(rowsInput) == FallbackRows
    ensures rowsInput != [] && ParseDigits(rowsInput) <= IntMax ==> RowsValue(rowsInput) == ParseDigits(rowsInput)
    ensures colsInput == [] || ParseDigits(colsInput) > IntMax ==> ColsValue(colsInput) == FallbackCols
    ensures colsInput != [] && ParseDigits(colsInput) <= IntMax ==> ColsValue(colsInput) == ParseDigits(colsInput)
  {
    ParseIntOfDigits(rowsInput);
    ParseIntOfDigits(colsInput);
  }

  /** The initial form describes a 10-by-4 bus. */
  lemma {:induction false} InitialForm()
    ensures RowsValue(InitialRows) == 10 && ColsValue(InitialCols) == 4
  {
    ParseIntOfNatToString(10);
    ParseIntOfNatToString(4);
    assert NatToString(10) == InitialRows by {
      assert NatToString(1) == "1" && NatToString(0) == "0";
    }
    assert NatToString(4) == InitialCols;
  }

  /** The allocate button is enabled unless an allocation is in flight. */
  predicate AllocateEnabled(status: Option<string>) {
    status != Some(Allocating)
  }

  /** `allocationStatus != null && allocationStatus.startsWith("Error")`: the error card as written. */
  predicate ErrorCardShown(status: Option<string>) {
    status.Some? && StartsWith(status.value, "Error")
  }

  /** The error card shown for a failed status of either kind. */
  predicate FailureCardShown(status: Option<string>) {
    status.Some? && (StartsWith(status.value, "Error") || StartsWith(status.value, "Network Error"))
  }

  /** The allocate button is disabled while the call is in flight and enabled again once it has finished. */
  lemma {:induction false} EnabledAroundAllocation(outcome: AllocationOutcome)
    ensures !AllocateEnabled(Some(Allocating))
    ensures AllocateEnabled(Some(StatusAfter(outcome)))
    ensures !ErrorCardShown(Some(Allocating)) && !FailureCardShown(Some(Allocating))
  {
    StatusKinds(outcome);
    assert Allocating[0] == 'A';
  }

  /** As written, a network failure never shows the error card: its status starts with "Network". */
  lemma {:induction false} NetworkErrorHidden(message: Option<string>)
    ensures !ErrorCardShown(Some(StatusAfter(Failure(message))))
  {
    var s := StatusAfter(Failure(message));
    assert s[0] == 'N';
  }

  /** With both failure prefixes, the error card shows exactly when the allocation call failed. */
  lemma {:induction false} FailureCardShownIffFailed(outcome: AllocationOutcome)
    ensures FailureCardShown(Some(StatusAfter(outcome))) <==>
      !(outcome.Response? && outcome.successful && outcome.body.Some?)
  {
    StatusKinds(outcome);
    var s := StatusAfter(outcome);
    if s == "Success" {
      assert s[0] == 'S';
    }
  }

  /** The allocate button: sets the layout from the form and sends the passengers for allocation. */
  method Proceed(layoutVm: LayoutViewModel, passengerVm: PassengerViewModel, rowsInput: string, colsInput: string,
                 selectedType: string, pnrMillis: int, tripMillis: int, outcome: AllocationOutcome)
    returns (request: SeatRequest)
    requires ColsValue(colsInput) <= MaxColumns
    modifies layoutVm, passengerVm
    ensures layoutVm.layout.Some? &&
      IsLayoutOf(layoutVm.layout.value, RowsValue(rowsInput), ColsValue(colsInput), selectedType)
    ensures request.tripId == "TRIP-" + IntToString(tripMillis)
    ensures request.vehicleConfig == VehicleConfig(RowsValue(rowsInput), ColsValue(colsInput))
    ensures |request.passengers| == |old(passengerVm.passengers)|
    ensures forall k :: 0 <= k < |old(passengerVm.passengers)| ==>
      request.passengers[k] == ToApiRequest(old(passengerVm.passengers)[k], "PNR-" + IntToString(pnrMillis))
    ensures passengerVm.allocationStatus == Some(StatusAfter(outcome))
    ensures outcome.Response? && outcome.successful && outcome.body.Some? ==>
      passengerVm.passengers == SeatsApplied(old(passengerVm.passengers), outcome.body.value) &&
      passengerVm.navigateToNext
    ensures !(outcome.Response? && outcome.successful && outcome.body.Some?) ==>
      passengerVm.passengers == old(passengerVm.passengers) &&
      passengerVm.navigateToNext == old(passengerVm.navigateToNext)
    ensures passengerVm.inputMode == old(passengerVm.inputMode) && passengerVm.isFinished == old(passengerVm.isFinished)
  {
    var r := ParseInt(rowsInput).GetOr(10);
    var c := ParseInt(colsInput).GetOr(4);
    layoutVm.SetLayout(r, c, selectedType);
    var layout := VehicleLayout(r, c, [], selectedType);
    request := passengerVm.StartAllocation(layout, pnrMillis, tripMillis);
    passengerVm.FinishAllocation(outcome);
  }

  // ---- the seat map ----

  /** The colours of a seat tile. */
  datatype TileColour = GroupBlue | SingleGreen | EmptyGrey

  /** A tile of the seat map: its label, colour, and whether a click on it opens its occupant. */
  datatype SeatTile = SeatTile(seatLabel: string, colour: TileColour, clickable: bool)

  /** `passengers.find { it.seatNumber == label }`. */
  function Occupant(passengers: seq<Passenger>, target: string): (found: Option<Passenger>)
    ensures found.None? <==> forall k :: 0 <= k < |passengers| ==> passengers[k].seatNumber != Some(target)
    ensures found.Some? ==> exists k :: 0 <= k < |passengers| && passengers[k] == found.value &&
                                        found.value.seatNumber == Some(target) &&
                                        forall j :: 0 <= j < k ==> passengers[j].seatNumber != Some(target)
    decreases |passengers|
  {
    if passengers == [] then None
    else if passengers[0].seatNumber == Some(target) then Some(passengers[0])
    else
      var rest := Occupant(passengers[1..], target);
      assert forall k :: 1 <= k < |passengers| ==> passengers[k] == passengers[1..][k - 1];
      rest
  }

  /** `occupant?.groupId != "GRP-001" && occupant?.groupId != null`. */
  predicate InGroup(occupant: Option<Passenger>) {
    occupant.Some? && occupant.value.groupId.Some? && occupant.value.groupId.value != UngroupedId
  }

  /** The tile for the seat with this label. */
  function TileFor(target: string, passengers: seq<Passenger>): SeatTile {
    var occupant := Occupant(passengers, target);
    var isOccupied := occupant.Some?;
    var isGroup := InGroup(occupant);
    SeatTile(target, if isGroup then GroupBlue else if isOccupied then SingleGreen else EmptyGrey, isOccupied)
  }

  /** Item `index` of `SeatGrid` for a layout `cols` seats wide. */
  function SeatGridTile(index: nat, cols: nat, passengers: seq<Passenger>): SeatTile
    requires 0 < cols <= MaxColumns
  {
    TileFor(SeatLabel(index / cols, index % cols), passengers)
  }

  /** The items of `SeatGrid`, one per seat. */
  function SeatGridCount(rows: nat, cols: nat): nat {
    rows * cols
  }

  /** The items and the seats of a rows-by-cols vehicle correspond one to one, in row-major order. */
  lemma {:induction false} SeatGridIndexBijection(rows: nat, cols: nat, index: nat, row: nat, col: nat)
    ensures index < SeatGridCount(rows, cols) ==>
      cols > 0 && index / cols < rows && index % cols < cols && (index / cols) * cols + index % cols == index
    ensures row < rows && col < cols ==>
      row * cols + col < SeatGridCount(rows, cols) && (row * cols + col) / cols == row && (row * cols + col) % cols == col
  {
    if index < SeatGridCount(rows, cols) {
      IndexCell(index, rows, cols);
    }
    if row < rows && col < cols {
      CellIndex(row, col, rows, cols);
    }
  }

  /** Every item is labelled like the seat `setLayout` puts at the same index. */
  lemma {:induction false} SeatGridLabelsMatchLayout(l: VehicleLayout, rows: int, cols: int, vehicleType: string,
                                                     passengers: seq<Passenger>, index: nat)
    requires cols <= MaxColumns && IsLayoutOf(l, rows, cols, vehicleType)
    requires index < |l.seats|
    ensures 0 < cols && SeatGridTile(index, cols, passengers).seatLabel == l.seats[index].seatNumber
  {
    LayoutSeatInRange(l, rows, cols, vehicleType, index);
  }

  /**
   * A tile is clickable exactly when some passenger sits in it; a group tile is always occupied; the colour
   * is blue for a group, green for anyone else seated and grey for an empty seat.
   */
  lemma {:induction false} TileFacts(target: string, passengers: seq<Passenger>)
    ensures var tile := TileFor(target, passengers);
      && tile.seatLabel == target
      && (tile.clickable <==> exists k :: 0 <= k < |passengers| && passengers[k].seatNumber == Some(target))
      && (tile.colour == GroupBlue ==> tile.clickable)
      && (tile.colour == EmptyGrey <==> !tile.clickable)
      && (tile.colour == GroupBlue <==> InGroup(Occupant(passengers, target)))
  {
  }

  /** A click on a clickable tile opens its occupant, the first passenger seated there. */
  lemma {:induction false} ClickOpensOccupant(target: string, passengers: seq<Passenger>)
    requires TileFor(target, passengers).clickable
    ensures Occupant(passengers, target).Some?
    ensures Occupant(passengers, target).value.seatNumber == Some(target)
  {
  }

  /** After an allocation, a passenger whose id came back with a seat label occupies the tile of that label. */
  lemma {:induction false} AllocatedPassengerShown(ps: seq<Passenger>, assignments: seq<SeatAssignment>, i: nat, k: nat)
    requires i < |ps| && k < |assignments|
    requires Matches(assignments[k], ps[i]) && forall j :: 0 <= j < k ==> !Matches(assignments[j], ps[i])
    ensures TileFor(assignments[k].seatLabel, SeatsApplied(ps, assignments)).clickable
  {
    SeatedProperties(ps, assignments, i);
    var seated := SeatsApplied(ps, assignments);
    assert seated[i].seatNumber == Some(assignments[k].seatLabel);
  }

  // ---- where the tiles are drawn ----

  /** A position in the drawn grid. */
  datatype GridPosition = GridPosition(row: nat, col: nat)

  /** As written: the tiles flow through a grid `cols + 1` wide. */
  function DrawnPosition(index: nat, cols: nat): GridPosition {
    GridPosition(index / (cols + 1), index % (cols + 1))
  }

  /** As written, on a four-seat-wide bus seat 2A is drawn at the end of the first row. */
  lemma {:induction false} SeatsDriftAcrossRows()
    ensures SeatGridTile(4, 4, []).seatLabel == SeatLabel(1, 0)
    ensures DrawnPosition(4, 4) == GridPosition(0, 4)
  {
  }

  /** Corrected: the tiles flow through a grid `cols` wide. */
  function AlignedPosition(index: nat, cols: nat): GridPosition
    requires cols > 0
  {
    GridPosition(index / cols, index % cols)
  }

  /** With the corrected width, every tile is drawn in the row and column its label names. */
  lemma {:induction false} TilesAligned(rows: nat, cols: nat, index: nat, passengers: seq<Passenger>)
    requires cols <= MaxColumns && index < SeatGridCount(rows, cols)
    ensures cols > 0
    ensures ParseSeatLabel(SeatGridTile(index, cols, passengers).seatLabel) ==
      Some(Position(AlignedPosition(index, cols).row, AlignedPosition(index, cols).col))
    ensures AlignedPosition(index, cols).row < rows && AlignedPosition(index, cols).col < cols
  {
    IndexCell(index, rows, cols);
    SeatLabelRoundTrip(index / cols, index % cols);
  }
}
