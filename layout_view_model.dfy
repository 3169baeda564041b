/**
 * The client's own vehicle layout (viewmodels/LayoutViewModel.kt): `setLayout` lists the seats of a
 * rows-by-cols vehicle row by row, labelled like the allocation service labels them, and
 * `getSeatByLabel` finds a seat of the stored layout by its label.
 */
module LayoutViewModels {
  import opened Wrappers
  import opened SeatLabels
  import opened ClientData
  import opened Text

  /** The `when` that gives column `c` of a row of `cols` seats its type. */
  function SeatTypeOf(c: int, cols: int): SeatType {
    if c == 0 || c == cols - 1 then Window
    else if cols == 5 && c == 2 then Regular
    else Aisle
  }

  /** The seat `setLayout` creates at (row, col). */
  function LayoutSeat(row: nat, col: nat, cols: int): Seat
    requires col < MaxColumns
  {
    Seat(row, col, SeatLabel(row, col), isAvailable := true, seatType := SeatTypeOf(col, cols))
  }

  /** The k-th seat is the seat at row k / width and column k % width. */
  ghost predicate RowMajorSeats(seats: seq<Seat>, width: nat, cols: int)
    requires width <= MaxColumns
  {
    forall k: nat :: k < |seats| ==> InLayoutPlace(k, seats[k], width, cols)
  }

  /** `seat` is the seat `setLayout` creates at index k, `width` seats per row. */
  ghost predicate InLayoutPlace(k: nat, seat: Seat, width: nat, cols: int)
    requires width <= MaxColumns
  {
    width > 0 && seat == LayoutSeat(k / width, k % width, cols)
  }

  /** `l` is the layout `setLayout(rows, cols, vehicleType)` stores. */
  ghost predicate IsLayoutOf(l: VehicleLayout, rows: int, cols: int, vehicleType: string)
    requires cols <= MaxColumns
  {
    && l.rows == rows && l.cols == cols && l.vehicleType == vehicleType
    && |l.seats| == RangeSize(rows) * RangeSize(cols)
    && RowMajorSeats(l.seats, RangeSize(cols), cols)
  }

  /** `seats.find { it.seatNumber == target }`. */
  function FindSeat(seats: seq<Seat>, target: string): (found: Option<Seat>)
    ensures found.None? <==> forall k :: 0 <= k < |seats| ==> seats[k].seatNumber != target
    ensures found.Some? ==> exists k :: 0 <= k < |seats| && seats[k] == found.value && found.value.seatNumber == target &&
                                        forall j :: 0 <= j < k ==> seats[j].seatNumber != target
    decreases |seats|
  {
    if seats == [] then None
    else if seats[0].seatNumber == target then Some(seats[0])
    else
      var rest := FindSeat(seats[1..], target);
      assert forall k :: 1 <= k < |seats| ==> seats[k] == seats[1..][k - 1];
      rest
  }

  class LayoutViewModel {
    /** The `_layout` state; null until a layout is set. */
    var layout: Option<VehicleLayout>

    constructor()
      ensures layout == None
    {
      layout := None;
    }

    /** `setLayout`: builds the seats in two nested loops and replaces the stored layout. */
    method SetLayout(rows: int, cols: int, vehicleType: string)
      requires cols <= MaxColumns
      modifies this
      ensures layout.Some? && IsLayoutOf(layout.value, rows, cols, vehicleType)
    {
      var height, width := RangeSize(rows), RangeSize(cols);
      var seats: seq<Seat> := [];
      var r := 0;
      while r < height
        invariant 0 <= r <= height
        invariant |seats| == r * width
        invariant RowMajorSeats(seats, width, cols)
      {
        var c := 0;
        while c < width
          invariant 0 <= c <= width
          invariant |seats| == r * width + c
          invariant RowMajorSeats(seats, width, cols)
        {
          var seatNum := SeatLabel(r, c);
          var seatType := if c == 0 || c == cols - 1 then Window
                          else if cols == 5 && c == 2 then Regular
                          else Aisle;
          RowMajorSeatsAppend(seats, r, c, width, cols);
          seats := seats + [Seat(r, c, seatNum, isAvailable := true, seatType := seatType)];
          c := c + 1;
        }
        assert |seats| == (r + 1) * width;
        r := r + 1;
      }
      layout := Some(VehicleLayout(rows, cols, seats, vehicleType));
    }

    /** `getSeatByLabel`: null without a layout, otherwise the first seat with that label. */
    function GetSeatByLabel(target: string): (found: Option<Seat>)
      reads this
      ensures layout.None? ==> found.None?
      ensures found.Some? ==> layout.Some? && found.value.seatNumber == target
      ensures found.Some? && layout.Some? ==>
        exists k :: 0 <= k < |layout.value.seats| && layout.value.seats[k] == found.value &&
                    forall j :: 0 <= j < k ==> layout.value.seats[j].seatNumber != target
      ensures layout.Some? && found.None? ==> forall s :: s in layout.value.seats ==> s.seatNumber != target
    {
      if layout.None? then None else FindSeat(layout.value.seats, target)
    }
  }

  /** Appending the seat at (row, col) after the first row * width + col seats keeps the row-major order. */
  lemma {:induction false} RowMajorSeatsAppend(seats: seq<Seat>, row: nat, col: nat, width: nat, cols: int)
    requires width <= MaxColumns && col < width
    requires |seats| == row * width + col && RowMajorSeats(seats, width, cols)
    ensures RowMajorSeats(seats + [LayoutSeat(row, col, cols)], width, cols)
  {
    CellIndex(row, col, row + 1, width);
    RowMajorSeatsExtend(seats, LayoutSeat(row, col, cols), width, cols);
  }

  /** Appending the seat that belongs at the next index keeps the row-major order. */
  lemma {:induction false} RowMajorSeatsExtend(seats: seq<Seat>, last: Seat, width: nat, cols: int)
    requires width <= MaxColumns && RowMajorSeats(seats, width, cols)
    requires InLayoutPlace(|seats|, last, width, cols)
    ensures RowMajorSeats(seats + [last], width, cols)
  {
    AppendKeeps(seats, last, (k: nat, seat: Seat) => InLayoutPlace(k, seat, width, cols));
  }

  // ---- properties of a layout set by setLayout ----

  /** The seat at an in-range (row, col) is at index row * cols + col, with that row, column and label. */
  lemma {:induction false} LayoutSeatAt(l: VehicleLayout, rows: int, cols: int, vehicleType: string, row: nat, col: nat)
    requires cols <= MaxColumns && IsLayoutOf(l, rows, cols, vehicleType)
    requires row < rows && col < cols
    ensures row * cols + col < |l.seats|
    ensures l.seats[row * cols + col] == LayoutSeat(row, col, cols)
    ensures l.seats[row * cols + col].seatNumber == SeatLabel(row, col)
  {
    CellIndex(row, col, rows, cols);
    var k := row * cols + col;
    assert l.seats[k] == LayoutSeat(k / cols, k % cols, cols);
  }

  /** Every seat of the layout is at an in-range position, every seat is available, and its label is its position's. */
  lemma {:induction false} LayoutSeatInRange(l: VehicleLayout, rows: int, cols: int, vehicleType: string, k: nat)
    requires cols <= MaxColumns && IsLayoutOf(l, rows, cols, vehicleType)
    requires k < |l.seats|
    ensures 0 <= l.seats[k].row < rows && 0 <= l.seats[k].col < cols
    ensures l.seats[k].row == k / cols && l.seats[k].col == k % cols
    ensures l.seats[k].isAvailable && l.seats[k].seatNumber == SeatLabel(k / cols, k % cols)
  {
    IndexCell(k, RangeSize(rows), RangeSize(cols));
  }

  /** No two seats of the layout share a label. */
  lemma {:induction false} LayoutLabelsDistinct(l: VehicleLayout, rows: int, cols: int, vehicleType: string, i: nat, j: nat)
    requires cols <= MaxColumns && IsLayoutOf(l, rows, cols, vehicleType)
    requires i < j < |l.seats|
    ensures l.seats[i].seatNumber != l.seats[j].seatNumber
  {
    LayoutSeatInRange(l, rows, cols, vehicleType, i);
    LayoutSeatInRange(l, rows, cols, vehicleType, j);
    SameCellSameIndex(i, j, cols);
    if SeatLabel(i / cols, i % cols) == SeatLabel(j / cols, j % cols) {
      SeatLabelInjective(i / cols, i % cols, j / cols, j % cols);
    }
  }

  /** Two indices in the same row and column of a grid of width `width` are the same index. */
  lemma {:induction false} SameCellSameIndex(i: nat, j: nat, width: int)
    requires width > 0 && i != j
    ensures i / width != j / width || i % width != j % width
  {
  }

  /** After setLayout, looking up the label of an in-range position finds the seat at that position. */
  lemma {:induction false} LookupFindsSeat(l: VehicleLayout, rows: int, cols: int, vehicleType: string, row: nat, col: nat)
    requires cols <= MaxColumns && IsLayoutOf(l, rows, cols, vehicleType)
    requires row < rows && col < cols
    ensures FindSeat(l.seats, SeatLabel(row, col)) == Some(LayoutSeat(row, col, cols))
  {
    LayoutSeatAt(l, rows, cols, vehicleType, row, col);
    var found := FindSeat(l.seats, SeatLabel(row, col));
    var k :| 0 <= k < |l.seats| && l.seats[k] == found.value && found.value.seatNumber == SeatLabel(row, col);
    LayoutSeatInRange(l, rows, cols, vehicleType, k);
    SeatLabelInjective(k / cols, k % cols, row, col);
  }

  /** After setLayout, a label is found exactly when it is the label of an in-range position. */
  lemma {:induction false} LookupOnlyGridLabels(l: VehicleLayout, rows: int, cols: int, vehicleType: string, target: string)
    requires cols <= MaxColumns && IsLayoutOf(l, rows, cols, vehicleType)
    ensures FindSeat(l.seats, target).Some? <==>
      ParseSeatLabel(target).Some? && ParseSeatLabel(target).value.row < rows && ParseSeatLabel(target).value.col < cols
  {
    var found := FindSeat(l.seats, target);
    if found.Some? {
      var k :| 0 <= k < |l.seats| && l.seats[k] == found.value && found.value.seatNumber == target;
      LayoutSeatInRange(l, rows, cols, vehicleType, k);
      SeatLabelRoundTrip(k / cols, k % cols);
    }
    if ParseSeatLabel(target).Some? && ParseSeatLabel(target).value.row < rows && ParseSeatLabel(target).value.col < cols {
      var pos := ParseSeatLabel(target).value;
      ParseSeatLabelSound(target);
      LookupFindsSeat(l, rows, cols, vehicleType, pos.row, pos.col);
    }
  }

  /** The seat types of a row read the same from either end. */
  lemma {:induction false} SeatTypesMirrored(c: int, cols: int)
    requires 0 <= c < cols
    ensures SeatTypeOf(c, cols) == SeatTypeOf(cols - 1 - c, cols)
    ensures SeatTypeOf(c, cols) == Regular ==> cols == 5 && c == cols / 2
    ensures SeatTypeOf(c, cols) != Accessible
  {
  }
}
