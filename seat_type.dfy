/** The seat-type classification of the allocation service (utils.py). */
module SeatTypes {
  import opened BusModel
  import opened SeatLabels

  /** `get_seat_type`: "front" in the accessibility rows, else "window" in the outer columns, else "aisle". */
  function GetSeatType(seat: Seat, bus: BusLayout): string {
    if seat.row < bus.accessibilityRows then "front"
    else if seat.col == 0 || seat.col == bus.cols - 1 then "window"
    else "aisle"
  }

  /** The three conditions of the classification, stated independently of one another. */
  lemma {:induction false} SeatTypeCases(seat: Seat, bus: BusLayout)
    ensures GetSeatType(seat, bus) in {"front", "window", "aisle"}
    ensures GetSeatType(seat, bus) == "front" <==> seat.row < bus.accessibilityRows
    ensures GetSeatType(seat, bus) == "window" <==>
      bus.accessibilityRows <= seat.row && (seat.col == 0 || seat.col == bus.cols - 1)
    ensures GetSeatType(seat, bus) == "aisle" <==>
      bus.accessibilityRows <= seat.row && seat.col != 0 && seat.col != bus.cols - 1
  {
    assert "front" != "window" && "front" != "aisle" && "window" != "aisle" by {
      assert "front"[0] != "window"[0] && "front"[0] != "aisle"[0] && "window"[0] != "aisle"[0];
    }
  }

  /** In a layout with at most two columns every seat of the layout is in the outer columns, so none is "aisle". */
  lemma {:induction false} NoAisleInNarrowBus(bus: BusLayout, id: string)
    requires WellFormed(bus) && bus.cols <= 2 && id in bus.seatMap
    ensures GetSeatType(bus.seatMap[id], bus) != "aisle"
  {
    SeatMapLabels(bus, id);
    SeatTypeCases(bus.seatMap[id], bus);
  }

  /** For the seats of a layout, "front" is exactly the disability zone. */
  lemma {:induction false} FrontIsDisabilityZone(bus: BusLayout, id: string)
    requires WellFormed(bus) && id in bus.seatMap
    ensures GetSeatType(bus.seatMap[id], bus) == "front" <==> bus.seatMap[id].zone == Disability
  {
    SeatZones(bus, id);
    SeatTypeCases(bus.seatMap[id], bus);
  }

  /** With the production layout (three accessibility rows), the first three rows are "front", the
      outer columns of the other rows are "window" and their inner columns "aisle"; the production
      `aisle_after=2` plays no part in the seat type. */
  lemma {:induction false} ProductionSeatTypes(bus: BusLayout, row: nat, col: nat)
    requires WellFormed(bus) && bus.accessibilityRows == 3
    requires row < bus.rows && col < bus.cols
    ensures SeatLabel(row, col) in bus.seatMap
    ensures row < 3 ==> GetSeatType(bus.seatMap[SeatLabel(row, col)], bus) == "front"
    ensures 3 <= row && (col == 0 || col == bus.cols - 1) ==> GetSeatType(bus.seatMap[SeatLabel(row, col)], bus) == "window"
    ensures 3 <= row && 0 < col < bus.cols - 1 ==> GetSeatType(bus.seatMap[SeatLabel(row, col)], bus) == "aisle"
  {
    SeatMapLabels(bus, SeatLabel(row, col));
    SeatLabelRoundTrip(row, col);
  }
}
