/**
 * Data structures of the allocation service (integrated_seat_ml_model.py): passengers,
 * seats and the bus layout, the seat grid it generates and the seat pairs it treats as
 * adjacent for group cohesion.
 */
module BusModel {
  import opened Wrappers
  import opened Text
  import opened SeatLabels

  /** A passenger as the optimiser sees it, with the constructor's default values. */
  datatype Passenger = Passenger(
    id: string,
    age: int := 30,
    groupId: Option<string> := None,
    gender: string := "Male",
    disability: string := "None",
    sourceStop: int := 0,
    destStop: int := 10)
  {
    /** `is_disabled`: the disability, lower-cased, is anything but "none". */
    predicate IsDisabled() {
      AsciiLower(disability) != "none"
    }

    /** `requires_disability_zone`: the disability, lower-cased, is "wheelchair". */
    predicate RequiresDisabilityZone() {
      AsciiLower(disability) == "wheelchair"
    }
  }

  /** Only a disabled passenger can require the disability zone. */
  lemma {:induction false} WheelchairIsDisabled(p: Passenger)
    requires p.RequiresDisabilityZone()
    ensures p.IsDisabled()
  {
    assert "wheelchair" != "none" by {
      assert |"wheelchair"| != |"none"|;
    }
  }

  /** The zones "disability", "female_only" and "general". */
  datatype Zone = Disability | FemaleOnly | General

  datatype Seat = Seat(id: string, row: int, col: int, isAccessible: bool := false, zone: Zone := General)

  /** An element of `adjacent_pairs`: a pair of seat ids in sorted order. */
  datatype SeatPair = SeatPair(first: string, second: string)

  datatype BusLayout = BusLayout(
    rows: int,
    cols: int,
    aisleAfter: int,
    accessibilityRows: int,
    genderZones: map<string, seq<int>>,
    seats: seq<Seat>,
    seatMap: map<string, Seat>,
    adjacentPairs: set<SeatPair>)

  /** The number of iterations of `range(n)`. */
  function Count(n: int): nat {
    if n < 0 then 0 else n
  }

  /** The gender zones used when none are given. */
  function DefaultGenderZones(): map<string, seq<int>> {
    map["female" := [2, 3]]
  }

  /** `gender_zones.get("female", [])`. */
  function FemaleRows(genderZones: map<string, seq<int>>): seq<int> {
    if "female" in genderZones then genderZones["female"] else []
  }

  function ZoneOf(row: int, accessibilityRows: int, genderZones: map<string, seq<int>>): Zone {
    if row < accessibilityRows then Disability
    else if row in FemaleRows(genderZones) then FemaleOnly
    else General
  }

  /** The seat `_generate_seats` creates for row `row` and column `col`. */
  function GridSeat(row: nat, col: nat, accessibilityRows: int, genderZones: map<string, seq<int>>): Seat
    requires col < MaxColumns
  {
    Seat(SeatLabel(row, col), row, col, row < accessibilityRows, ZoneOf(row, accessibilityRows, genderZones))
  }

  /** Each seat of `seats` is the grid seat at (k / cols, k % cols), k being its index. */
  ghost predicate RowMajor(seats: seq<Seat>, cols: nat, accessibilityRows: int, genderZones: map<string, seq<int>>)
    requires cols <= MaxColumns
  {
    forall k: nat :: k < |seats| ==> InGridPlace(k, seats[k], cols, accessibilityRows, genderZones)
  }

  /** `seat` is the grid seat that belongs at index k of a row-major listing with `cols` seats per row. */
  ghost predicate InGridPlace(k: nat, seat: Seat, cols: nat, accessibilityRows: int, genderZones: map<string, seq<int>>)
    requires cols <= MaxColumns
  {
    cols > 0 && seat == GridSeat(k / cols, k % cols, accessibilityRows, genderZones)
  }

  /** `seats` lists the rows-by-cols grid in row-major order. */
  ghost predicate IsGrid(seats: seq<Seat>, rows: nat, cols: nat, accessibilityRows: int, genderZones: map<string, seq<int>>)
    requires cols <= MaxColumns
  {
    |seats| == rows * cols && RowMajor(seats, cols, accessibilityRows, genderZones)
  }

  /** Appending the seat at (row, col) to the first row * cols + col seats keeps the row-major order. */
  lemma {:induction false} RowMajorAppend(seats: seq<Seat>, row: nat, col: nat, cols: nat, accessibilityRows: int, genderZones: map<string, seq<int>>)
    requires cols <= MaxColumns && col < cols
    requires |seats| == row * cols + col && RowMajor(seats, cols, accessibilityRows, genderZones)
    ensures RowMajor(seats + [GridSeat(row, col, accessibilityRows, genderZones)], cols, accessibilityRows, genderZones)
  {
    CellIndex(row, col, row + 1, cols);
    RowMajorExtend(seats, GridSeat(row, col, accessibilityRows, genderZones), cols, accessibilityRows, genderZones);
  }

  /** Appending the grid seat that belongs at the next index keeps the row-major order. */
  lemma {:induction false} RowMajorExtend(seats: seq<Seat>, last: Seat, cols: nat, accessibilityRows: int, genderZones: map<string, seq<int>>)
    requires cols <= MaxColumns && RowMajor(seats, cols, accessibilityRows, genderZones)
    requires InGridPlace(|seats|, last, cols, accessibilityRows, genderZones)
    ensures RowMajor(seats + [last], cols, accessibilityRows, genderZones)
  {
    AppendKeeps(seats, last, (k: nat, t: Seat) => InGridPlace(k, t, cols, accessibilityRows, genderZones));
  }

  /** The k-th seat of a grid is the seat at an in-range position. */
  lemma {:induction false} GridSeatAtIndex(seats: seq<Seat>, rows: nat, cols: nat, accessibilityRows: int, genderZones: map<string, seq<int>>, k: nat)
    requires cols <= MaxColumns && IsGrid(seats, rows, cols, accessibilityRows, genderZones)
    requires k < |seats|
    ensures cols > 0 && k / cols < rows && k % cols < cols
    ensures seats[k] == GridSeat(k / cols, k % cols, accessibilityRows, genderZones)
  {
    IndexCell(k, rows, cols);
  }

  /** The seat at an in-range position is in the grid, at index row * cols + col. */
  lemma {:induction false} GridSeatAtCell(seats: seq<Seat>, rows: nat, cols: nat, accessibilityRows: int, genderZones: map<string, seq<int>>, row: nat, col: nat)
    requires cols <= MaxColumns && IsGrid(seats, rows, cols, accessibilityRows, genderZones)
    requires row < rows && col < cols
    ensures row * cols + col < |seats|
    ensures seats[row * cols + col] == GridSeat(row, col, accessibilityRows, genderZones)
  {
    CellIndex(row, col, rows, cols);
    var k := row * cols + col;
    assert seats[k] == GridSeat(k / cols, k % cols, accessibilityRows, genderZones);
  }

  /** `_generate_seats`. */
  method GenerateSeats(rows: int, cols: int, accessibilityRows: int, genderZones: map<string, seq<int>>)
    returns (seats: seq<Seat>)
    requires cols <= MaxColumns
    ensures IsGrid(seats, Count(rows), Count(cols), accessibilityRows, genderZones)
  {
    var height, width := Count(rows), Count(cols);
    seats := [];
    var r := 0;
    while r < height
      invariant 0 <= r <= height
      invariant |seats| == r * width
      invariant RowMajor(seats, width, accessibilityRows, genderZones)
    {
      var c := 0;
      while c < width
        invariant 0 <= c <= width
        invariant |seats| == r * width + c
        invariant RowMajor(seats, width, accessibilityRows, genderZones)
      {
        var sid := SeatLabel(r, c);
        var accessible := r < accessibilityRows;
        var zone := if accessible then Disability
                    else if r in FemaleRows(genderZones) then FemaleOnly
                    else General;
        RowMajorAppend(seats, r, c, width, accessibilityRows, genderZones);
        seats := seats + [Seat(sid, r, c, accessible, zone)];
        c := c + 1;
      }
      assert |seats| == (r + 1) * width;
      r := r + 1;
    }
  }

  /** `{s.id: s for s in seats}`: later seats overwrite earlier ones with the same id. */
  function SeatMapOf(seats: seq<Seat>): map<string, Seat>
    decreases |seats|
  {
    if seats == [] then map[]
    else SeatMapOf(seats[..|seats| - 1])[seats[|seats| - 1].id := seats[|seats| - 1]]
  }

  /** `{(s.row, s.col): s.id for s in seats}`. */
  function PositionMapOf(seats: seq<Seat>): map<(int, int), string>
    decreases |seats|
  {
    if seats == [] then map[]
    else
      var s := seats[|seats| - 1];
      PositionMapOf(seats[..|seats| - 1])[(s.row, s.col) := s.id]
  }

  lemma {:induction false} SeatMapOfElements(seats: seq<Seat>)
    ensures forall id :: id in SeatMapOf(seats) ==> SeatMapOf(seats)[id] in seats && SeatMapOf(seats)[id].id == id
    ensures forall k :: 0 <= k < |seats| ==> seats[k].id in SeatMapOf(seats)
    decreases |seats|
  {
    if seats != [] {
      var init := seats[..|seats| - 1];
      SeatMapOfElements(init);
      forall k | 0 <= k < |seats| - 1 ensures seats[k].id in SeatMapOf(seats) {
        assert seats[k] == init[k];
      }
      forall id | id in SeatMapOf(seats) ensures SeatMapOf(seats)[id] in seats {
        if id != seats[|seats| - 1].id {
          assert SeatMapOf(init)[id] in init;
        }
      }
    }
  }

  /** Seats with in-range positions whose ids are the labels of those positions. */
  ghost predicate LabelledWithin(seats: seq<Seat>, rows: nat, cols: nat)
  {
    forall k :: 0 <= k < |seats| ==>
      && 0 <= seats[k].row < rows && 0 <= seats[k].col < cols && seats[k].col < MaxColumns
      && seats[k].id == SeatLabel(seats[k].row, seats[k].col)
  }

  lemma {:induction false} PositionMapOfLabelled(seats: seq<Seat>, rows: nat, cols: nat)
    requires LabelledWithin(seats, rows, cols)
    ensures forall key :: key in PositionMapOf(seats) ==>
      0 <= key.0 < rows && 0 <= key.1 < cols && key.1 < MaxColumns && PositionMapOf(seats)[key] == SeatLabel(key.0, key.1)
    ensures forall k :: 0 <= k < |seats| ==> (seats[k].row, seats[k].col) in PositionMapOf(seats)
    decreases |seats|
  {
    if seats != [] {
      var init := seats[..|seats| - 1];
      assert LabelledWithin(init, rows, cols) by {
        forall k | 0 <= k < |init| ensures init[k] == seats[k] { }
      }
      PositionMapOfLabelled(init, rows, cols);
      forall k | 0 <= k < |seats| - 1 ensures (seats[k].row, seats[k].col) in PositionMapOf(seats) {
        assert seats[k] == init[k];
      }
    }
  }

  lemma {:induction false} GridIsLabelled(seats: seq<Seat>, rows: nat, cols: nat, accessibilityRows: int, genderZones: map<string, seq<int>>)
    requires cols <= MaxColumns
    requires IsGrid(seats, rows, cols, accessibilityRows, genderZones)
    ensures LabelledWithin(seats, rows, cols)
  {
    forall k | 0 <= k < |seats|
      ensures 0 <= seats[k].row < rows && 0 <= seats[k].col < cols
    {
      GridSeatAtIndex(seats, rows, cols, accessibilityRows, genderZones, k);
    }
  }

  /** The index of the seat at an in-range position, without its arithmetic. */
  lemma {:induction false} CellOf(seats: seq<Seat>, rows: nat, cols: nat, accessibilityRows: int, genderZones: map<string, seq<int>>, row: nat, col: nat)
    returns (k: nat)
    requires cols <= MaxColumns && IsGrid(seats, rows, cols, accessibilityRows, genderZones)
    requires row < rows && col < cols
    ensures k < |seats| && seats[k] == GridSeat(row, col, accessibilityRows, genderZones)
  {
    GridSeatAtCell(seats, rows, cols, accessibilityRows, genderZones, row, col);
    k := row * cols + col;
  }

  /** Each seat of a grid is the seat at its own, in-range position. */
  lemma {:induction false} GridElement(seats: seq<Seat>, rows: nat, cols: nat, accessibilityRows: int, genderZones: map<string, seq<int>>, x: Seat)
    requires cols <= MaxColumns && IsGrid(seats, rows, cols, accessibilityRows, genderZones)
    requires x in seats
    ensures 0 <= x.row < rows && 0 <= x.col < cols
    ensures x == GridSeat(x.row, x.col, accessibilityRows, genderZones)
  {
    var k :| 0 <= k < |seats| && seats[k] == x;
    GridSeatAtIndex(seats, rows, cols, accessibilityRows, genderZones, k);
  }

  /** The keys of `seat_map` over a grid are labels of in-range positions, mapped to the seats there. */
  lemma {:induction false} SeatMapOfGridKeys(seats: seq<Seat>, rows: nat, cols: nat, accessibilityRows: int, genderZones: map<string, seq<int>>)
    requires cols <= MaxColumns
    requires IsGrid(seats, rows, cols, accessibilityRows, genderZones)
    ensures forall id :: id in SeatMapOf(seats) ==>
      && ParseSeatLabel(id).Some?
      && ParseSeatLabel(id).value.row < rows && ParseSeatLabel(id).value.col < cols
      && SeatMapOf(seats)[id] == GridSeat(ParseSeatLabel(id).value.row, ParseSeatLabel(id).value.col, accessibilityRows, genderZones)
  {
    var m := SeatMapOf(seats);
    SeatMapOfElements(seats);
    forall id | id in m
      ensures && ParseSeatLabel(id).Some?
              && ParseSeatLabel(id).value.row < rows && ParseSeatLabel(id).value.col < cols
              && m[id] == GridSeat(ParseSeatLabel(id).value.row, ParseSeatLabel(id).value.col, accessibilityRows, genderZones)
    {
      var x := m[id];
      GridElement(seats, rows, cols, accessibilityRows, genderZones, x);
      SeatLabelRoundTrip(x.row, x.col);
    }
  }

  /** In a generated grid, the seat at (r, c) is the value of `seat_map` at its label. */
  lemma {:induction false} SeatMapOfGridCells(seats: seq<Seat>, rows: nat, cols: nat, accessibilityRows: int, genderZones: map<string, seq<int>>)
    requires cols <= MaxColumns
    requires IsGrid(seats, rows, cols, accessibilityRows, genderZones)
    ensures forall r, c :: 0 <= r < rows && 0 <= c < cols ==>
      SeatLabel(r, c) in SeatMapOf(seats) && SeatMapOf(seats)[SeatLabel(r, c)] == GridSeat(r, c, accessibilityRows, genderZones)
  {
    var m := SeatMapOf(seats);
    SeatMapOfElements(seats);
    forall r, c | 0 <= r < rows && 0 <= c < cols
      ensures SeatLabel(r, c) in m && m[SeatLabel(r, c)] == GridSeat(r, c, accessibilityRows, genderZones)
    {
      GridSeatAtCell(seats, rows, cols, accessibilityRows, genderZones, r, c);
      assert seats[r * cols + c].id == SeatLabel(r, c);
      var x := m[SeatLabel(r, c)];
      GridElement(seats, rows, cols, accessibilityRows, genderZones, x);
      SeatLabelInjective(x.row, x.col, r, c);
    }
  }

  // ---- adjacency ----

  /** Python's string order `a < b`: lexicographic by character code, a proper prefix first. */
  predicate StrLess(a: string, b: string)
    decreases |a|
  {
    if |a| == 0 then |b| > 0
    else if |b| == 0 then false
    else if a[0] != b[0] then a[0] < b[0]
    else StrLess(a[1..], b[1..])
  }

  lemma {:induction false} StrLessTotal(a: string, b: string)
    requires a != b
    ensures StrLess(a, b) || StrLess(b, a)
    ensures !(StrLess(a, b) && StrLess(b, a))
    decreases |a|
  {
    if |a| > 0 && |b| > 0 && a[0] == b[0] {
      assert a == [a[0]] + a[1..] && b == [b[0]] + b[1..];
      StrLessTotal(a[1..], b[1..]);
    }
  }

  /** `tuple(sorted((a, b)))`. */
  function SortedPair(a: string, b: string): (p: SeatPair)
    ensures (p.first == a && p.second == b) || (p.first == b && p.second == a)
    ensures a != b ==> StrLess(p.first, p.second)
  {
    if a != b then StrLessTotal(a, b); (if StrLess(b, a) then SeatPair(b, a) else SeatPair(a, b))
    else SeatPair(a, b)
  }

  /** Two seats side by side in a row without the aisle between them, or one behind the other in a column. */
  predicate Neighbours(s1: Seat, s2: Seat, aisleAfter: int) {
    || (s1.col == s2.col && (s2.row == s1.row + 1 || s1.row == s2.row + 1))
    || (s1.row == s2.row && s2.col == s1.col + 1 && s2.col != aisleAfter)
    || (s1.row == s2.row && s1.col == s2.col + 1 && s1.col != aisleAfter)
  }

  /** A pair of distinct known seat ids, in sorted order, whose seats are neighbours. */
  predicate IsAdjacentPair(p: SeatPair, seatMap: map<string, Seat>, aisleAfter: int) {
    && p.first in seatMap && p.second in seatMap
    && StrLess(p.first, p.second)
    && Neighbours(seatMap[p.first], seatMap[p.second], aisleAfter)
  }

  function HorizontalPair(row: nat, col: nat): SeatPair
    requires col + 1 < MaxColumns
  {
    SortedPair(SeatLabel(row, col), SeatLabel(row, col + 1))
  }

  function VerticalPair(row: nat, col: nat): SeatPair
    requires col < MaxColumns
  {
    SortedPair(SeatLabel(row, col), SeatLabel(row + 1, col))
  }

  /** Each pair of `adjacent_pairs` is a sorted pair of neighbouring seats. */
  ghost predicate AdjacencySound(adj: set<SeatPair>, seatMap: map<string, Seat>, aisleAfter: int) {
    forall p :: p in adj ==> IsAdjacentPair(p, seatMap, aisleAfter)
  }

  /** The pairs the seat at (row, col) contributes: with its right-hand neighbour unless the aisle is between
      them, and with the seat behind it. */
  function OwnPairs(row: nat, col: nat, rows: nat, cols: nat, aisleAfter: int): set<SeatPair>
    requires cols <= MaxColumns && col < cols
  {
    (if col + 1 < cols && col + 1 != aisleAfter then {HorizontalPair(row, col)} else {})
    + (if row + 1 < rows then {VerticalPair(row, col)} else {})
  }

  ghost predicate CoveredAt(adj: set<SeatPair>, row: nat, col: nat, rows: nat, cols: nat, aisleAfter: int)
    requires cols <= MaxColumns && col < cols
  {
    OwnPairs(row, col, rows, cols, aisleAfter) <= adj
  }

  /** Every horizontal neighbour pair not split by the aisle, and every vertical one, is in `adjacent_pairs`. */
  ghost predicate AdjacencyComplete(adj: set<SeatPair>, rows: nat, cols: nat, aisleAfter: int)
    requires cols <= MaxColumns
  {
    forall r, c :: 0 <= r < rows && 0 <= c < cols ==> CoveredAt(adj, r, c, rows, cols, aisleAfter)
  }

  /** Over a grid, the position map has exactly the in-range positions as keys, each mapped to its label. */
  lemma {:induction false} PositionMapOfGrid(seats: seq<Seat>, rows: nat, cols: nat, accessibilityRows: int, genderZones: map<string, seq<int>>)
    requires cols <= MaxColumns && IsGrid(seats, rows, cols, accessibilityRows, genderZones)
    ensures forall key: (int, int) :: key in PositionMapOf(seats) <==> 0 <= key.0 < rows && 0 <= key.1 < cols
    ensures forall key: (int, int) :: key in PositionMapOf(seats) ==>
      0 <= key.1 < MaxColumns && 0 <= key.0 && PositionMapOf(seats)[key] == SeatLabel(key.0, key.1)
  {
    GridIsLabelled(seats, rows, cols, accessibilityRows, genderZones);
    PositionMapOfLabelled(seats, rows, cols);
    forall key: (int, int) | 0 <= key.0 < rows && 0 <= key.1 < cols
      ensures key in PositionMapOf(seats)
    {
      GridSeatAtCell(seats, rows, cols, accessibilityRows, genderZones, key.0, key.1);
      assert seats[key.0 * cols + key.1].row == key.0;
    }
  }

  lemma {:induction false} HorizontalPairSound(seats: seq<Seat>, rows: nat, cols: nat, accessibilityRows: int, genderZones: map<string, seq<int>>,
                            aisleAfter: int, r: nat, c: nat)
    requires cols <= MaxColumns && IsGrid(seats, rows, cols, accessibilityRows, genderZones)
    requires r < rows && c + 1 < cols && c + 1 != aisleAfter
    ensures IsAdjacentPair(HorizontalPair(r, c), SeatMapOf(seats), aisleAfter)
  {
    SeatMapOfGridCells(seats, rows, cols, accessibilityRows, genderZones);
    SeatLabelShape(r, c);
    SeatLabelShape(r, c + 1);
  }

  lemma {:induction false} VerticalPairSound(seats: seq<Seat>, rows: nat, cols: nat, accessibilityRows: int, genderZones: map<string, seq<int>>,
                          aisleAfter: int, r: nat, c: nat)
    requires cols <= MaxColumns && IsGrid(seats, rows, cols, accessibilityRows, genderZones)
    requires r + 1 < rows && c < cols
    ensures IsAdjacentPair(VerticalPair(r, c), SeatMapOf(seats), aisleAfter)
  {
    SeatMapOfGridCells(seats, rows, cols, accessibilityRows, genderZones);
    assert SeatLabel(r, c) != SeatLabel(r + 1, c) by {
      if SeatLabel(r, c) == SeatLabel(r + 1, c) {
        SeatLabelInjective(r, c, r + 1, c);
      }
    }
  }

  /** Where the position map finds the right-hand and rear neighbours of a grid seat, and what pairs they form. */
  lemma {:induction false} NeighbourKeys(seats: seq<Seat>, rows: nat, cols: nat, accessibilityRows: int, genderZones: map<string, seq<int>>, s: Seat)
    requires cols <= MaxColumns && IsGrid(seats, rows, cols, accessibilityRows, genderZones)
    requires s in seats
    ensures 0 <= s.row < rows && 0 <= s.col < cols
    ensures (s.row, s.col + 1) in PositionMapOf(seats) <==> s.col + 1 < cols
    ensures (s.row + 1, s.col) in PositionMapOf(seats) <==> s.row + 1 < rows
    ensures s.col + 1 < cols ==> SortedPair(s.id, PositionMapOf(seats)[(s.row, s.col + 1)]) == HorizontalPair(s.row, s.col)
    ensures s.row + 1 < rows ==> SortedPair(s.id, PositionMapOf(seats)[(s.row + 1, s.col)]) == VerticalPair(s.row, s.col)
  {
    GridElement(seats, rows, cols, accessibilityRows, genderZones, s);
    PositionMapOfGrid(seats, rows, cols, accessibilityRows, genderZones);
  }

  /** `_compute_adjacents`, over the seats `_generate_seats` produced. */
  method ComputeAdjacents(seats: seq<Seat>, aisleAfter: int,
                          ghost rows: nat, ghost cols: nat, ghost accessibilityRows: int, ghost genderZones: map<string, seq<int>>)
    returns (adj: set<SeatPair>)
    requires cols <= MaxColumns && IsGrid(seats, rows, cols, accessibilityRows, genderZones)
    ensures AdjacencySound(adj, SeatMapOf(seats), aisleAfter)
    ensures AdjacencyComplete(adj, rows, cols, aisleAfter)
  {
    var seatsByPos := PositionMapOf(seats);
    adj := {};
    var k := 0;
    while k < |seats|
      invariant 0 <= k <= |seats|
      invariant AdjacencySound(adj, SeatMapOf(seats), aisleAfter)
      invariant CoveredPrefix(seats, k, adj, rows, cols, aisleAfter)
    {
      var s := seats[k];
      ghost var before := adj;
      // horizontal (not across the aisle)
      if (s.row, s.col + 1) in seatsByPos && s.col + 1 != aisleAfter {
        adj := adj + {SortedPair(s.id, seatsByPos[(s.row, s.col + 1)])};
      }
      // vertical
      if (s.row + 1, s.col) in seatsByPos {
        adj := adj + {SortedPair(s.id, seatsByPos[(s.row + 1, s.col)])};
      }
      AdjacentsStep(seats, rows, cols, accessibilityRows, genderZones, aisleAfter, k, before, adj);
      OwnPairsSound(seats, rows, cols, accessibilityRows, genderZones, aisleAfter, s.row, s.col);
      SoundUnion(before, OwnPairs(s.row, s.col, rows, cols, aisleAfter), SeatMapOf(seats), aisleAfter);
      CoveredPrefixStep(seats, k, before, adj, rows, cols, aisleAfter);
      k := k + 1;
    }
    CoveredEverywhere(seats, adj, rows, cols, accessibilityRows, genderZones, aisleAfter);
  }

  /** One iteration of `_compute_adjacents` adds exactly the own pairs of the k-th seat. */
  lemma {:induction false} AdjacentsStep(seats: seq<Seat>, rows: nat, cols: nat, accessibilityRows: int,
                                         genderZones: map<string, seq<int>>, aisleAfter: int,
                                         k: nat, adj: set<SeatPair>, next: set<SeatPair>)
    requires cols <= MaxColumns && IsGrid(seats, rows, cols, accessibilityRows, genderZones)
    requires k < |seats|
    requires var s, byPos := seats[k], PositionMapOf(seats);
      next ==
        adj
        + (if (s.row, s.col + 1) in byPos && s.col + 1 != aisleAfter then {SortedPair(s.id, byPos[(s.row, s.col + 1)])} else {})
        + (if (s.row + 1, s.col) in byPos then {SortedPair(s.id, byPos[(s.row + 1, s.col)])} else {})
    ensures 0 <= seats[k].row < rows && 0 <= seats[k].col < cols
    ensures next == adj + OwnPairs(seats[k].row, seats[k].col, rows, cols, aisleAfter)
  {
    NeighbourKeys(seats, rows, cols, accessibilityRows, genderZones, seats[k]);
  }

  /** Adding adjacent pairs to adjacent pairs gives adjacent pairs. */
  lemma {:induction false} SoundUnion(adj: set<SeatPair>, more: set<SeatPair>, seatMap: map<string, Seat>, aisleAfter: int)
    requires AdjacencySound(adj, seatMap, aisleAfter) && AdjacencySound(more, seatMap, aisleAfter)
    ensures AdjacencySound(adj + more, seatMap, aisleAfter)
  {
  }

  /** The own pairs of a grid seat are adjacent pairs. */
  lemma {:induction false} OwnPairsSound(seats: seq<Seat>, rows: nat, cols: nat, accessibilityRows: int,
                                         genderZones: map<string, seq<int>>, aisleAfter: int, r: nat, c: nat)
    requires cols <= MaxColumns && IsGrid(seats, rows, cols, accessibilityRows, genderZones)
    requires r < rows && c < cols
    ensures AdjacencySound(OwnPairs(r, c, rows, cols, aisleAfter), SeatMapOf(seats), aisleAfter)
  {
    if c + 1 < cols && c + 1 != aisleAfter {
      HorizontalPairSound(seats, rows, cols, accessibilityRows, genderZones, aisleAfter, r, c);
    }
    if r + 1 < rows {
      VerticalPairSound(seats, rows, cols, accessibilityRows, genderZones, aisleAfter, r, c);
    }
  }

  /** The own pairs of each of the first k seats are in adj. */
  ghost predicate CoveredPrefix(seats: seq<Seat>, k: nat, adj: set<SeatPair>, rows: nat, cols: nat, aisleAfter: int)
    requires cols <= MaxColumns && k <= |seats|
  {
    forall j :: 0 <= j < k ==> 0 <= seats[j].row && 0 <= seats[j].col < cols && CoveredAt(adj, seats[j].row, seats[j].col, rows, cols, aisleAfter)
  }

  lemma {:induction false} CoveredPrefixStep(seats: seq<Seat>, k: nat, adj0: set<SeatPair>, adj: set<SeatPair>, rows: nat, cols: nat, aisleAfter: int)
    requires cols <= MaxColumns && k < |seats| && CoveredPrefix(seats, k, adj0, rows, cols, aisleAfter)
    requires 0 <= seats[k].row && 0 <= seats[k].col < cols
    requires adj == adj0 + OwnPairs(seats[k].row, seats[k].col, rows, cols, aisleAfter)
    ensures CoveredPrefix(seats, k + 1, adj, rows, cols, aisleAfter)
  {
  }

  /** When every seat's own pairs are present, all pairs of the grid are. */
  lemma {:induction false} CoveredEverywhere(seats: seq<Seat>, adj: set<SeatPair>, rows: nat, cols: nat, accessibilityRows: int,
                          genderZones: map<string, seq<int>>, aisleAfter: int)
    requires cols <= MaxColumns && IsGrid(seats, rows, cols, accessibilityRows, genderZones)
    requires CoveredPrefix(seats, |seats|, adj, rows, cols, aisleAfter)
    ensures AdjacencyComplete(adj, rows, cols, aisleAfter)
  {
    forall r, c | 0 <= r < rows && 0 <= c < cols
      ensures CoveredAt(adj, r, c, rows, cols, aisleAfter)
    {
      var k := CellOf(seats, rows, cols, accessibilityRows, genderZones, r, c);
      assert 0 <= seats[k].row && 0 <= seats[k].col < cols && CoveredAt(adj, seats[k].row, seats[k].col, rows, cols, aisleAfter);
    }
  }

  /** The fields `BusLayout.__init__` sets up, and how they relate. */
  ghost predicate WellFormed(bus: BusLayout) {
    && bus.cols <= MaxColumns
    && IsGrid(bus.seats, Count(bus.rows), Count(bus.cols), bus.accessibilityRows, bus.genderZones)
    && bus.seatMap == SeatMapOf(bus.seats)
    && AdjacencySound(bus.adjacentPairs, bus.seatMap, bus.aisleAfter)
    && AdjacencyComplete(bus.adjacentPairs, Count(bus.rows), Count(bus.cols), bus.aisleAfter)
  }

  /** `BusLayout(rows, cols, accessibility_rows=2, gender_zones=None, aisle_after=1)`. */
  method NewBusLayout(rows: int, cols: int, accessibilityRows: int := 2,
                      genderZones: Option<map<string, seq<int>>> := None, aisleAfter: int := 1)
    returns (bus: BusLayout)
    requires cols <= MaxColumns
    ensures WellFormed(bus)
    ensures bus.rows == rows && bus.cols == cols && bus.aisleAfter == aisleAfter
    ensures bus.accessibilityRows == accessibilityRows
    ensures bus.genderZones == genderZones.GetOr(DefaultGenderZones())
  {
    var zones := if genderZones.None? then DefaultGenderZones() else genderZones.value;
    var seats := GenerateSeats(rows, cols, accessibilityRows, zones);
    var seatMap := SeatMapOf(seats);
    var adj := ComputeAdjacents(seats, aisleAfter, Count(rows), Count(cols), accessibilityRows, zones);
    bus := BusLayout(rows, cols, aisleAfter, accessibilityRows, zones, seats, seatMap, adj);
  }

  /** Every seat of a layout is in the disability zone exactly when it is accessible, exactly when its row is one
      of the first accessibility_rows; otherwise it is female-only exactly when its row is listed under "female". */
  lemma {:induction false} SeatZones(bus: BusLayout, id: string)
    requires WellFormed(bus) && id in bus.seatMap
    ensures var s := bus.seatMap[id];
      && (s.isAccessible <==> s.zone == Disability)
      && (s.zone == Disability <==> s.row < bus.accessibilityRows)
      && (s.zone == FemaleOnly <==> bus.accessibilityRows <= s.row && s.row in FemaleRows(bus.genderZones))
  {
    SeatMapOfGridKeys(bus.seats, Count(bus.rows), Count(bus.cols), bus.accessibilityRows, bus.genderZones);
  }

  /** `seat_map` holds exactly the labels of the rows-by-cols positions, each for the seat at that position. */
  lemma {:induction false} SeatMapLabels(bus: BusLayout, id: string)
    requires WellFormed(bus)
    ensures id in bus.seatMap <==>
      ParseSeatLabel(id).Some? && ParseSeatLabel(id).value.row < bus.rows && ParseSeatLabel(id).value.col < bus.cols
    ensures id in bus.seatMap ==>
      bus.seatMap[id].row == ParseSeatLabel(id).value.row && bus.seatMap[id].col == ParseSeatLabel(id).value.col
  {
    SeatMapOfGridKeys(bus.seats, Count(bus.rows), Count(bus.cols), bus.accessibilityRows, bus.genderZones);
    SeatMapOfGridCells(bus.seats, Count(bus.rows), Count(bus.cols), bus.accessibilityRows, bus.genderZones);
    if ParseSeatLabel(id).Some? && ParseSeatLabel(id).value.row < bus.rows && ParseSeatLabel(id).value.col < bus.cols {
      ParseSeatLabelSound(id);
    }
  }

  /** Every seat of `seat_map` lies inside the grid and is stored under its own id. */
  lemma {:induction false} SeatInGrid(bus: BusLayout, id: string)
    requires WellFormed(bus) && id in bus.seatMap
    ensures 0 <= bus.seatMap[id].row < bus.rows && 0 <= bus.seatMap[id].col < bus.cols
    ensures bus.seatMap[id].id == id
  {
    SeatMapOfElements(bus.seats);
    GridElement(bus.seats, Count(bus.rows), Count(bus.cols), bus.accessibilityRows, bus.genderZones, bus.seatMap[id]);
  }

  /** Two seats on either side of the aisle are never an adjacent pair. */
  lemma {:induction false} AisleSplitsRow(bus: BusLayout, row: nat, col: nat)
    requires WellFormed(bus) && col + 1 < MaxColumns && col + 1 == bus.aisleAfter
    ensures HorizontalPair(row, col) !in bus.adjacentPairs
  {
    if HorizontalPair(row, col) in bus.adjacentPairs {
      var p := HorizontalPair(row, col);
      assert IsAdjacentPair(p, bus.seatMap, bus.aisleAfter);
      SeatLabelRoundTrip(row, col);
      SeatLabelRoundTrip(row, col + 1);
      SeatLabelMembers(bus, row, col);
      SeatLabelMembers(bus, row, col + 1);
      assert false;
    }
  }

  lemma {:induction false} SeatLabelMembers(bus: BusLayout, row: nat, col: nat)
    requires WellFormed(bus) && col < MaxColumns && SeatLabel(row, col) in bus.seatMap
    ensures bus.seatMap[SeatLabel(row, col)].row == row && bus.seatMap[SeatLabel(row, col)].col == col
  {
    SeatMapLabels(bus, SeatLabel(row, col));
    SeatLabelRoundTrip(row, col);
  }

  /** No adjacent pair joins a seat to itself, and no pair occurs in both orders. */
  lemma {:induction false} AdjacentPairsOrdered(bus: BusLayout, p: SeatPair)
    requires WellFormed(bus) && p in bus.adjacentPairs
    ensures p.first != p.second
    ensures SeatPair(p.second, p.first) !in bus.adjacentPairs
  {
    assert StrLess(p.first, p.second);
    if p.first == p.second {
      StrLessIrreflexive(p.first);
      assert false;
    }
    StrLessTotal(p.first, p.second);
  }

  lemma {:induction false} StrLessIrreflexive(a: string)
    ensures !StrLess(a, a)
    decreases |a|
  {
    if |a| > 0 {
      StrLessIrreflexive(a[1..]);
    }
  }
}
