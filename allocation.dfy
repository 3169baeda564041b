/**
 * The placement rules of the allocation service (integrated_seat_ml_model.py, optimize_seating_with_ml):
 * the hard constraints every solution of the solver satisfies, the collection of the chosen seats from
 * the solver's binary variables, and the post-processing into per-passenger assignment details.
 * The solver itself is a foreign call: its result is a status and the set of (passenger id, seat id)
 * pairs whose variable is 1.
 */
module Allocation {
  import opened Wrappers
  import opened Text
  import opened SeatLabels
  import opened BusModel
  import opened SeatTypes

  // ---- hard constraints ----

  /** The trips of two passengers overlap: neither gets off before the other gets on. */
  predicate TripsOverlap(p1: Passenger, p2: Passenger) {
    !(p1.destStop <= p2.sourceStop || p2.destStop <= p1.sourceStop)
  }

  /** `str(p.gender).lower() == "male"`. */
  predicate IsMale(p: Passenger) {
    AsciiLower(p.gender) == "male"
  }

  /** The three zone rules: no male passenger in the female-only zone, only disabled or senior (60 and
      over) passengers in the disability zone, and wheelchair users only in the disability zone. */
  predicate Eligible(p: Passenger, s: Seat) {
    && !(IsMale(p) && s.zone == FemaleOnly)
    && !(!(p.IsDisabled() || p.age >= 60) && s.zone == Disability)
    && !(p.RequiresDisabilityZone() && s.zone != Disability)
  }

  /** The ids of `seats`, in order, whose variable for passenger id `pid` is 1. */
  function SeatsChosenFor(pid: string, seats: seq<Seat>, x: set<(string, string)>): (ids: seq<string>)
    ensures |ids| <= |seats|
    decreases |seats|
  {
    if seats == [] then []
    else
      var s := seats[|seats| - 1];
      SeatsChosenFor(pid, seats[..|seats| - 1], x) + (if (pid, s.id) in x then [s.id] else [])
  }

  /** The hard constraints of the model, over the pairs whose variable is 1: one seat per passenger,
      no seat shared by two passengers whose trips overlap, and every chosen seat eligible. */
  ghost predicate IsFeasible(ps: seq<Passenger>, bus: BusLayout, x: set<(string, string)>) {
    && (forall i :: 0 <= i < |ps| ==> |SeatsChosenFor(ps[i].id, bus.seats, x)| == 1)
    && (forall k, i, j :: 0 <= k < |bus.seats| && 0 <= i < j < |ps| && TripsOverlap(ps[i], ps[j]) ==>
          !((ps[i].id, bus.seats[k].id) in x && (ps[j].id, bus.seats[k].id) in x))
    && (forall i, k :: 0 <= i < |ps| && 0 <= k < |bus.seats| && (ps[i].id, bus.seats[k].id) in x ==>
          Eligible(ps[i], bus.seats[k]))
  }

  /** What the hard constraints say about a map from passenger ids to seat ids. */
  ghost predicate SatisfiesHardConstraints(ps: seq<Passenger>, bus: BusLayout, chosen: map<string, string>) {
    && (forall i :: 0 <= i < |ps| ==> ps[i].id in chosen && chosen[ps[i].id] in bus.seatMap)
    && (forall i, j :: 0 <= i < j < |ps| && TripsOverlap(ps[i], ps[j]) ==> chosen[ps[i].id] != chosen[ps[j].id])
    && (forall i :: 0 <= i < |ps| ==> Eligible(ps[i], bus.seatMap[chosen[ps[i].id]]))
  }

  function SeatIds(seats: seq<Seat>): seq<string> {
    seq(|seats|, k requires 0 <= k < |seats| => seats[k].id)
  }

  function PassengerIds(ps: seq<Passenger>): set<string> {
    set i | 0 <= i < |ps| :: ps[i].id
  }

  lemma {:induction false} PassengerIdsSnoc(ps: seq<Passenger>)
    requires ps != []
    ensures PassengerIds(ps) == PassengerIds(ps[..|ps| - 1]) + {ps[|ps| - 1].id}
  {
    var init := ps[..|ps| - 1];
    forall id | id in PassengerIds(ps) ensures id in PassengerIds(init) + {ps[|ps| - 1].id} {
      var j :| 0 <= j < |ps| && ps[j].id == id;
      if j < |init| {
        assert init[j] == ps[j];
      }
    }
    forall id | id in PassengerIds(init) ensures id in PassengerIds(ps) {
      var j :| 0 <= j < |init| && init[j].id == id;
      assert ps[j] == init[j];
    }
  }

  /** The seat the solver chose for each passenger, when each has exactly one. */
  ghost function SolverChoice(ps: seq<Passenger>, seats: seq<Seat>, x: set<(string, string)>): map<string, string>
    requires forall i :: 0 <= i < |ps| ==> |SeatsChosenFor(ps[i].id, seats, x)| == 1
  {
    map i | 0 <= i < |ps| :: ps[i].id := SeatsChosenFor(ps[i].id, seats, x)[0]
  }

  /** The collection loop (`chosen[p_id] = s_id` for every variable equal to 1), over passengers and seats
      in the order the variables were created. */
  method CollectChosen(ps: seq<Passenger>, seats: seq<Seat>, x: set<(string, string)>) returns (chosen: map<string, string>)
    ensures chosen.Keys <= PassengerIds(ps)
    ensures forall pid :: pid in chosen ==> (pid, chosen[pid]) in x && chosen[pid] in SeatIds(seats)
    ensures forall i, k :: 0 <= i < |ps| && 0 <= k < |seats| && (ps[i].id, seats[k].id) in x ==> ps[i].id in chosen
  {
    chosen := map[];
    for i := 0 to |ps|
      invariant chosen.Keys <= PassengerIds(ps)
      invariant forall pid :: pid in chosen ==> (pid, chosen[pid]) in x && chosen[pid] in SeatIds(seats)
      invariant forall a, k :: 0 <= a < i && 0 <= k < |seats| && (ps[a].id, seats[k].id) in x ==> ps[a].id in chosen
    {
      for k := 0 to |seats|
        invariant chosen.Keys <= PassengerIds(ps)
        invariant forall pid :: pid in chosen ==> (pid, chosen[pid]) in x && chosen[pid] in SeatIds(seats)
        invariant forall a, b :: 0 <= a < i && 0 <= b < |seats| && (ps[a].id, seats[b].id) in x ==> ps[a].id in chosen
        invariant forall b :: 0 <= b < k && (ps[i].id, seats[b].id) in x ==> ps[i].id in chosen
      {
        if (ps[i].id, seats[k].id) in x {
          assert seats[k].id == SeatIds(seats)[k];
          chosen := chosen[ps[i].id := seats[k].id];
        }
      }
    }
  }

  /** A seat id whose variable is 1 is among the seats chosen for that passenger. */
  lemma {:induction false} ChosenSeatListed(pid: string, sid: string, seats: seq<Seat>, x: set<(string, string)>)
    requires (pid, sid) in x && sid in SeatIds(seats)
    ensures sid in SeatsChosenFor(pid, seats, x)
    decreases |seats|
  {
    var init := seats[..|seats| - 1];
    if sid != seats[|seats| - 1].id {
      var k :| 0 <= k < |seats| && SeatIds(seats)[k] == sid;
      assert k < |init| && SeatIds(init)[k] == sid;
      ChosenSeatListed(pid, sid, init, x);
    }
  }

  /** Every seat chosen for a passenger has its variable set. */
  lemma {:induction false} ListedSeatChosen(pid: string, seats: seq<Seat>, x: set<(string, string)>, n: nat)
    requires n < |SeatsChosenFor(pid, seats, x)|
    ensures (pid, SeatsChosenFor(pid, seats, x)[n]) in x
    ensures exists k :: 0 <= k < |seats| && seats[k].id == SeatsChosenFor(pid, seats, x)[n]
    decreases |seats|
  {
    var init := seats[..|seats| - 1];
    if n < |SeatsChosenFor(pid, init, x)| {
      ListedSeatChosen(pid, init, x, n);
      var k :| 0 <= k < |init| && init[k].id == SeatsChosenFor(pid, seats, x)[n];
      assert seats[k] == init[k];
    }
  }

  /** When the solver gives every passenger exactly one seat, the collected map is the solver's choice. */
  lemma {:induction false} CollectedIsSolverChoice(ps: seq<Passenger>, seats: seq<Seat>, x: set<(string, string)>, chosen: map<string, string>)
    requires forall i :: 0 <= i < |ps| ==> |SeatsChosenFor(ps[i].id, seats, x)| == 1
    requires chosen.Keys <= PassengerIds(ps)
    requires forall pid :: pid in chosen ==> (pid, chosen[pid]) in x && chosen[pid] in SeatIds(seats)
    requires forall i, k :: 0 <= i < |ps| && 0 <= k < |seats| && (ps[i].id, seats[k].id) in x ==> ps[i].id in chosen
    ensures chosen == SolverChoice(ps, seats, x)
  {
    var m := SolverChoice(ps, seats, x);
    forall i | 0 <= i < |ps|
      ensures ps[i].id in chosen && chosen[ps[i].id] == m[ps[i].id]
    {
      var pid := ps[i].id;
      ListedSeatChosen(pid, seats, x, 0);
      var k :| 0 <= k < |seats| && seats[k].id == SeatsChosenFor(pid, seats, x)[0];
      assert pid in chosen;
      ChosenSeatListed(pid, chosen[pid], seats, x);
    }
    assert chosen.Keys == m.Keys;
  }

  /** In a layout, each seat is the `seat_map` value at its own id. */
  lemma {:induction false} SeatMapAtSeats(bus: BusLayout, k: nat)
    requires WellFormed(bus) && k < |bus.seats|
    ensures bus.seats[k].id in bus.seatMap && bus.seatMap[bus.seats[k].id] == bus.seats[k]
  {
    GridSeatAtIndex(bus.seats, Count(bus.rows), Count(bus.cols), bus.accessibilityRows, bus.genderZones, k);
    SeatMapOfGridCells(bus.seats, Count(bus.rows), Count(bus.cols), bus.accessibilityRows, bus.genderZones);
  }

  /** The solver's choice in a feasible solution meets the hard constraints. */
  lemma {:induction false} SolverChoiceSatisfies(ps: seq<Passenger>, bus: BusLayout, x: set<(string, string)>)
    requires WellFormed(bus) && IsFeasible(ps, bus, x)
    ensures SatisfiesHardConstraints(ps, bus, SolverChoice(ps, bus.seats, x))
  {
    var m := SolverChoice(ps, bus.seats, x);
    forall i | 0 <= i < |ps|
      ensures ps[i].id in m && m[ps[i].id] in bus.seatMap && Eligible(ps[i], bus.seatMap[m[ps[i].id]])
    {
      ListedSeatChosen(ps[i].id, bus.seats, x, 0);
      var k :| 0 <= k < |bus.seats| && bus.seats[k].id == m[ps[i].id];
      SeatMapAtSeats(bus, k);
    }
    forall i, j | 0 <= i < j < |ps| && TripsOverlap(ps[i], ps[j])
      ensures m[ps[i].id] != m[ps[j].id]
    {
      ListedSeatChosen(ps[i].id, bus.seats, x, 0);
      ListedSeatChosen(ps[j].id, bus.seats, x, 0);
    }
  }

  // ---- consequences of the hard constraints ----

  /** Trip overlap is symmetric. */
  lemma {:induction false} TripsOverlapSymmetric(p1: Passenger, p2: Passenger)
    ensures TripsOverlap(p1, p2) <==> TripsOverlap(p2, p1)
  {
  }

  /** Two distinct passengers seated on the same seat have trips that do not overlap. */
  lemma {:induction false} SharedSeatMeansDisjointTrips(ps: seq<Passenger>, bus: BusLayout, chosen: map<string, string>, i: nat, j: nat)
    requires SatisfiesHardConstraints(ps, bus, chosen)
    requires i < |ps| && j < |ps| && i != j && chosen[ps[i].id] == chosen[ps[j].id]
    ensures ps[i].destStop <= ps[j].sourceStop || ps[j].destStop <= ps[i].sourceStop
  {
    if i < j {
      assert !TripsOverlap(ps[i], ps[j]);
    } else {
      assert !TripsOverlap(ps[j], ps[i]);
    }
  }

  /** A wheelchair user sits in the disability zone, on an accessible seat in a "front" row. */
  lemma {:induction false} WheelchairSeated(ps: seq<Passenger>, bus: BusLayout, chosen: map<string, string>, i: nat)
    requires WellFormed(bus) && SatisfiesHardConstraints(ps, bus, chosen)
    requires i < |ps| && ps[i].RequiresDisabilityZone()
    ensures var s := bus.seatMap[chosen[ps[i].id]];
      s.zone == Disability && s.isAccessible && s.row < bus.accessibilityRows && GetSeatType(s, bus) == "front"
  {
    SeatZones(bus, chosen[ps[i].id]);
    FrontIsDisabilityZone(bus, chosen[ps[i].id]);
  }

  /** A male passenger never sits in a female-only row. */
  lemma {:induction false} MaleNotInFemaleZone(ps: seq<Passenger>, bus: BusLayout, chosen: map<string, string>, i: nat)
    requires WellFormed(bus) && SatisfiesHardConstraints(ps, bus, chosen)
    requires i < |ps| && IsMale(ps[i])
    ensures var s := bus.seatMap[chosen[ps[i].id]];
      s.zone != FemaleOnly && (s.row < bus.accessibilityRows || s.row !in FemaleRows(bus.genderZones))
  {
    SeatZones(bus, chosen[ps[i].id]);
  }

  /** A passenger neither disabled nor a senior never sits in the accessibility rows. */
  lemma {:induction false} AbleBodiedNotInDisabilityZone(ps: seq<Passenger>, bus: BusLayout, chosen: map<string, string>, i: nat)
    requires WellFormed(bus) && SatisfiesHardConstraints(ps, bus, chosen)
    requires i < |ps| && !ps[i].IsDisabled() && ps[i].age < 60
    ensures var s := bus.seatMap[chosen[ps[i].id]];
      s.zone != Disability && bus.accessibilityRows <= s.row && GetSeatType(s, bus) != "front"
  {
    SeatZones(bus, chosen[ps[i].id]);
    FrontIsDisabilityZone(bus, chosen[ps[i].id]);
  }

  // ---- groups and group distance ----

  /** `if p.group_id:` — present and non-empty. */
  predicate Truthy(g: Option<string>) {
    g.Some? && g.value != ""
  }

  /** The passengers of group `gid`, in passenger order. */
  function Members(ps: seq<Passenger>, gid: string): (ms: seq<Passenger>)
    ensures |ms| <= |ps|
    ensures forall m :: m in ms ==> m in ps && m.groupId == Some(gid)
    decreases |ps|
  {
    if ps == [] then []
    else
      var p := ps[|ps| - 1];
      Members(ps[..|ps| - 1], gid) + (if p.groupId == Some(gid) then [p] else [])
  }

  function GroupKeys(ps: seq<Passenger>): set<string> {
    set i | 0 <= i < |ps| && Truthy(ps[i].groupId) :: ps[i].groupId.value
  }

  /** The `group_dict` loop: each truthy group id maps to its members in passenger order. */
  method BuildGroupDict(ps: seq<Passenger>) returns (groups: map<string, seq<Passenger>>)
    ensures groups.Keys == GroupKeys(ps)
    ensures forall gid :: gid in groups ==> groups[gid] == Members(ps, gid)
  {
    groups := map[];
    for i := 0 to |ps|
      invariant groups.Keys == GroupKeys(ps[..i])
      invariant forall gid :: gid in groups ==> groups[gid] == Members(ps[..i], gid)
    {
      ghost var before := groups;
      var p := ps[i];
      if Truthy(p.groupId) {
        var gid := p.groupId.value;
        var members := if gid in groups then groups[gid] else [];
        groups := groups[gid := members + [p]];
      }
      GroupDictStep(ps, i, before, groups);
    }
    assert ps[..|ps|] == ps;
  }

  /** One passenger more of the `group_dict` loop. */
  lemma {:induction false} GroupDictStep(ps: seq<Passenger>, i: nat, groups: map<string, seq<Passenger>>,
                                         next: map<string, seq<Passenger>>)
    requires i < |ps|
    requires groups.Keys == GroupKeys(ps[..i])
    requires forall gid :: gid in groups ==> groups[gid] == Members(ps[..i], gid)
    requires next == if Truthy(ps[i].groupId) then
        groups[ps[i].groupId.value := (if ps[i].groupId.value in groups then groups[ps[i].groupId.value] else []) + [ps[i]]]
      else groups
    ensures next.Keys == GroupKeys(ps[..i + 1])
    ensures forall gid :: gid in next ==> next[gid] == Members(ps[..i + 1], gid)
  {
    var p := ps[i];
    assert ps[..i + 1][..i] == ps[..i];
    assert GroupKeys(ps[..i + 1]) == GroupKeys(ps[..i]) + (if Truthy(p.groupId) then {p.groupId.value} else {}) by {
      assert forall j :: 0 <= j < i ==> ps[..i + 1][j] == ps[..i][j];
    }
    forall gid | gid in next ensures next[gid] == Members(ps[..i + 1], gid) {
      if gid !in GroupKeys(ps[..i]) {
        MembersOutsideKeys(ps[..i], gid);
      }
    }
  }

  /** A non-empty id that no passenger carries has no members. */
  lemma {:induction false} MembersOutsideKeys(ps: seq<Passenger>, gid: string)
    requires gid != "" && gid !in GroupKeys(ps)
    ensures Members(ps, gid) == []
    decreases |ps|
  {
    if ps != [] {
      var init := ps[..|ps| - 1];
      assert GroupKeys(init) <= GroupKeys(ps) by {
        forall j | 0 <= j < |init| ensures init[j] == ps[j] { }
      }
      MembersOutsideKeys(init, gid);
      assert ps[|ps| - 1].groupId != Some(gid);
    }
  }

  /** Every group of `group_dict` has at least one member. */
  lemma {:induction false} GroupsNonEmpty(ps: seq<Passenger>, gid: string)
    requires gid in GroupKeys(ps)
    ensures |Members(ps, gid)| >= 1
    decreases |ps|
  {
    var init := ps[..|ps| - 1];
    if ps[|ps| - 1].groupId != Some(gid) {
      var j :| 0 <= j < |ps| && Truthy(ps[j].groupId) && ps[j].groupId.value == gid;
      assert j < |init| && init[j] == ps[j];
      GroupsNonEmpty(init, gid);
    }
  }

  function Abs(n: int): nat {
    if n < 0 then -n else n
  }

  /** The Manhattan distance between two seats. */
  function Distance(s1: Seat, s2: Seat): nat {
    Abs(s1.row - s2.row) + Abs(s1.col - s2.col)
  }

  /** d is the largest distance between two of the seats, or 0 when there are fewer than two. */
  ghost predicate IsMaxPairDistance(seats: seq<Seat>, d: int) {
    && d >= 0
    && (forall a, b :: 0 <= a < b < |seats| ==> Distance(seats[a], seats[b]) <= d)
    && (d == 0 || exists a, b :: 0 <= a < b < |seats| && Distance(seats[a], seats[b]) == d)
  }

  /** The `maxd` loop over all pairs of a group's seats. */
  method GroupDistance(seats: seq<Seat>) returns (maxd: int)
    ensures IsMaxPairDistance(seats, maxd)
  {
    maxd := 0;
    for i := 0 to |seats|
      invariant maxd >= 0
      invariant forall a, b :: 0 <= a < i && a < b < |seats| ==> Distance(seats[a], seats[b]) <= maxd
      invariant maxd == 0 || exists a, b :: 0 <= a < b < |seats| && Distance(seats[a], seats[b]) == maxd
    {
      for j := i + 1 to |seats|
        invariant maxd >= 0
        invariant forall a, b :: 0 <= a < i && a < b < |seats| ==> Distance(seats[a], seats[b]) <= maxd
        invariant forall b :: i < b < j ==> Distance(seats[i], seats[b]) <= maxd
        invariant maxd == 0 || exists a, b :: 0 <= a < b < |seats| && Distance(seats[a], seats[b]) == maxd
      {
        var d := Abs(seats[i].row - seats[j].row) + Abs(seats[i].col - seats[j].col);
        if d > maxd {
          maxd := d;
        }
      }
    }
  }

  /** A group of one (or none) is at distance 0. */
  lemma {:induction false} SingleMemberDistance(seats: seq<Seat>, d: int)
    requires |seats| <= 1 && IsMaxPairDistance(seats, d)
    ensures d == 0
  {
  }

  /** The maximum pair distance is unique. */
  lemma {:induction false} MaxPairDistanceUnique(seats: seq<Seat>, d1: int, d2: int)
    requires IsMaxPairDistance(seats, d1) && IsMaxPairDistance(seats, d2)
    ensures d1 == d2
  {
  }

  /** Seats of a layout are at most `rows + cols - 2` apart, so a group's distance is bounded by the layout. */
  lemma {:induction false} GroupDistanceBound(bus: BusLayout, seats: seq<Seat>, d: int)
    requires WellFormed(bus) && IsMaxPairDistance(seats, d) && |seats| >= 1
    requires forall k :: 0 <= k < |seats| ==> seats[k].id in bus.seatMap && bus.seatMap[seats[k].id] == seats[k]
    ensures d <= bus.rows + bus.cols - 2
  {
    SeatInGrid(bus, seats[0].id);
    if d != 0 {
      var a, b :| 0 <= a < b < |seats| && Distance(seats[a], seats[b]) == d;
      SeatInGrid(bus, seats[a].id);
      SeatInGrid(bus, seats[b].id);
    }
  }

  /** `[bus.seat_map[chosen[p.id]] for p in members]`. */
  function MemberSeats(members: seq<Passenger>, bus: BusLayout, chosen: map<string, string>): seq<Seat>
    requires forall m :: m in members ==> m.id in chosen && chosen[m.id] in bus.seatMap
  {
    seq(|members|, k requires 0 <= k < |members| => bus.seatMap[chosen[members[k].id]])
  }

  /** The `group_distances` loop. */
  method GroupDistances(groups: map<string, seq<Passenger>>, bus: BusLayout, chosen: map<string, string>)
    returns (distances: map<string, int>)
    requires forall gid, m :: gid in groups && m in groups[gid] ==> m.id in chosen && chosen[m.id] in bus.seatMap
    ensures distances.Keys == groups.Keys
    ensures forall gid :: gid in distances ==> IsMaxPairDistance(MemberSeats(groups[gid], bus, chosen), distances[gid])
  {
    distances := map[];
    var remaining := groups.Keys;
    while remaining != {}
      invariant remaining <= groups.Keys && distances.Keys == groups.Keys - remaining
      invariant forall gid :: gid in distances ==> IsMaxPairDistance(MemberSeats(groups[gid], bus, chosen), distances[gid])
      decreases remaining
    {
      var gid :| gid in remaining;
      var seats := MemberSeats(groups[gid], bus, chosen);
      var maxd := GroupDistance(seats);
      distances := distances[gid := maxd];
      remaining := remaining - {gid};
    }
  }

  // ---- normalised coordinates ----

  /** `row / (rows - 1) if rows > 1 else 0.0`, in exact arithmetic. */
  function Normalise(v: int, n: int): real {
    if n > 1 then v as real / (n - 1) as real else 0.0
  }

  /** A coordinate inside the grid normalises into [0, 1], to 0 at the first line and to 1 at the last. */
  lemma {:induction false} NormaliseBounds(v: int, n: int)
    requires 0 <= v < n
    ensures 0.0 <= Normalise(v, n) <= 1.0
    ensures n <= 1 ==> Normalise(v, n) == 0.0
    ensures v == 0 ==> Normalise(v, n) == 0.0
    ensures n > 1 ==> (Normalise(v, n) == 1.0 <==> v == n - 1)
  {
    if n > 1 {
      var q := v as real / (n - 1) as real;
      assert q * (n - 1) as real == v as real;
    }
  }

  // ---- assignment details ----

  datatype AssignmentDetail = AssignmentDetail(
    seatId: string, seatType: string, normRow: real, normCol: real, groupDistance: Option<int>)

  /** `group_distances.get(p.group_id)`. */
  function GroupDistanceOf(g: Option<string>, distances: map<string, int>): Option<int> {
    if g.Some? && g.value in distances then Some(distances[g.value]) else None
  }

  /** The entry `assignment_details` gets for a passenger. */
  function DetailFor(p: Passenger, bus: BusLayout, chosen: map<string, string>, distances: map<string, int>): AssignmentDetail
    requires p.id in chosen && chosen[p.id] in bus.seatMap
  {
    var seat := bus.seatMap[chosen[p.id]];
    AssignmentDetail(seat.id, GetSeatType(seat, bus), Normalise(seat.row, bus.rows), Normalise(seat.col, bus.cols),
                     GroupDistanceOf(p.groupId, distances))
  }

  /** No later passenger has the same id as passenger i (so its entry is not overwritten). */
  predicate LastWithId(ps: seq<Passenger>, i: nat)
    requires i < |ps|
  {
    forall j :: i < j < |ps| ==> ps[j].id != ps[i].id
  }

  /** `assignment_details` after the passengers `ps`: a later passenger overwrites an earlier one with the same id. */
  function DetailsOf(ps: seq<Passenger>, bus: BusLayout, chosen: map<string, string>, distances: map<string, int>)
    : map<string, AssignmentDetail>
    requires forall i :: 0 <= i < |ps| ==> ps[i].id in chosen && chosen[ps[i].id] in bus.seatMap
    decreases |ps|
  {
    if ps == [] then map[]
    else
      var p := ps[|ps| - 1];
      DetailsOf(ps[..|ps| - 1], bus, chosen, distances)[p.id := DetailFor(p, bus, chosen, distances)]
  }

  /** `assignment_details` has one entry per passenger id, the one of the last passenger with that id. */
  lemma {:induction false} DetailsOfEntries(ps: seq<Passenger>, bus: BusLayout, chosen: map<string, string>, distances: map<string, int>)
    requires forall i :: 0 <= i < |ps| ==> ps[i].id in chosen && chosen[ps[i].id] in bus.seatMap
    ensures DetailsOf(ps, bus, chosen, distances).Keys == PassengerIds(ps)
    ensures forall i :: 0 <= i < |ps| && LastWithId(ps, i) ==>
      DetailsOf(ps, bus, chosen, distances)[ps[i].id] == DetailFor(ps[i], bus, chosen, distances)
    decreases |ps|
  {
    if ps != [] {
      var init := ps[..|ps| - 1];
      var last := ps[|ps| - 1];
      assert forall j :: 0 <= j < |init| ==> init[j] == ps[j];
      DetailsOfEntries(init, bus, chosen, distances);
      var before := DetailsOf(init, bus, chosen, distances);
      assert DetailsOf(ps, bus, chosen, distances) == before[last.id := DetailFor(last, bus, chosen, distances)];
      PassengerIdsSnoc(ps);
      forall i | 0 <= i < |ps| - 1 && LastWithId(ps, i)
        ensures DetailsOf(ps, bus, chosen, distances)[ps[i].id] == DetailFor(ps[i], bus, chosen, distances)
      {
        assert ps[i].id != last.id;
        assert init[i] == ps[i];
        assert LastWithId(init, i);
        assert before[init[i].id] == DetailFor(init[i], bus, chosen, distances);
      }
    }
  }

  /** The `assignment_details` loop. */
  method AssignmentDetails(ps: seq<Passenger>, bus: BusLayout, chosen: map<string, string>, distances: map<string, int>)
    returns (details: map<string, AssignmentDetail>)
    requires forall i :: 0 <= i < |ps| ==> ps[i].id in chosen && chosen[ps[i].id] in bus.seatMap
    ensures details == DetailsOf(ps, bus, chosen, distances)
  {
    details := map[];
    for i := 0 to |ps|
      invariant details == DetailsOf(ps[..i], bus, chosen, distances)
    {
      assert ps[..i + 1][..i] == ps[..i];
      details := details[ps[i].id := DetailFor(ps[i], bus, chosen, distances)];
    }
    assert ps[..|ps|] == ps;
  }

  /** The name part `{p1.id}_{p2.id}` of the constraint that keeps two passengers off one seat. */
  function PairName(p1: Passenger, p2: Passenger): string {
    p1.id + "_" + p2.id
  }

  /** Two constraints of the model get the same name, on which `pulp` raises `PulpError` while the model
      is built: `oneSeat_{p.id}` repeats when two passengers share an id, and `noOverlap_{s.id}_{p1.id}_{p2.id}`
      repeats when two different pairs of passengers with overlapping trips format to the same name (ids
      holding '_'), on a bus that has a seat to name them after. */
  predicate NamesOverlap(ps: seq<Passenger>, bus: BusLayout) {
    || (exists i, j :: 0 <= i < j < |ps| && ps[i].id == ps[j].id)
    || (|bus.seats| > 0 &&
        exists i, j, i', j' :: 0 <= i < j < |ps| && 0 <= i' < j' < |ps| && (i != i' || j != j') &&
          TripsOverlap(ps[i], ps[j]) && TripsOverlap(ps[i'], ps[j']) && PairName(ps[i], ps[j]) == PairName(ps[i'], ps[j']))
  }

  /** Without repeated constraint names the passenger ids are distinct, so each passenger is the last one with its id. */
  lemma {:induction false} DistinctIdsLast(ps: seq<Passenger>, bus: BusLayout)
    requires !NamesOverlap(ps, bus)
    ensures forall i :: 0 <= i < |ps| ==> LastWithId(ps, i)
  {
    forall i | 0 <= i < |ps|
      ensures LastWithId(ps, i)
    {
      forall j | i < j < |ps|
        ensures ps[j].id != ps[i].id
      {
        assert !(0 <= i < j < |ps| && ps[i].id == ps[j].id);
      }
    }
  }

  /** The solver's outcome. */
  datatype SolverStatus = Optimal | NotSolved | Infeasible | Unbounded | Undefined

  /** What `optimize_seating_with_ml` ends with: the assignment details it returns, or the `PulpError`
      raised on a repeated constraint name. */
  datatype SeatingOutcome = Returned(details: map<string, AssignmentDetail>) | RaisedPulpError

  /** The deterministic part of `optimize_seating_with_ml`, given the solver's status and the pairs whose
      variable is 1; when the model is built and solved to optimality those pairs satisfy the hard constraints. */
  method OptimizeSeating(ps: seq<Passenger>, bus: BusLayout, status: SolverStatus, x: set<(string, string)>)
    returns (outcome: SeatingOutcome)
    requires WellFormed(bus)
    requires !NamesOverlap(ps, bus) && status == Optimal ==> IsFeasible(ps, bus, x)
    ensures outcome.RaisedPulpError? <==> NamesOverlap(ps, bus)
    ensures outcome.Returned? && status != Optimal ==> outcome.details == map[]
    ensures outcome.Returned? && status == Optimal ==> outcome.details.Keys == PassengerIds(ps)
    ensures outcome.Returned? && status == Optimal ==> SatisfiesHardConstraints(ps, bus, SolverChoice(ps, bus.seats, x))
    ensures outcome.Returned? && status == Optimal ==> forall i :: 0 <= i < |ps| ==>
      DetailMeetsContract(ps, bus, x, i, outcome.details[ps[i].id])
  {
    if NamesOverlap(ps, bus) {
      return RaisedPulpError;
    }
    if status != Optimal {
      return Returned(map[]);
    }
    var chosen := CollectChosen(ps, bus.seats, x);
    CollectedIsSolverChoice(ps, bus.seats, x, chosen);
    SolverChoiceSatisfies(ps, bus, x);
    var groups := BuildGroupDict(ps);
    GroupMembersSeated(ps, bus, x, groups);
    var distances := GroupDistances(groups, bus, chosen);
    var details := AssignmentDetails(ps, bus, chosen, distances);
    OptimizedDetails(ps, bus, x, groups, distances);
    DistinctIdsLast(ps, bus);
    outcome := Returned(details);
  }

  /** Every member of a group of `group_dict` has a seat in the solver's choice. */
  lemma {:induction false} GroupMembersSeated(ps: seq<Passenger>, bus: BusLayout, x: set<(string, string)>,
                                              groups: map<string, seq<Passenger>>)
    requires WellFormed(bus) && IsFeasible(ps, bus, x)
    requires SatisfiesHardConstraints(ps, bus, SolverChoice(ps, bus.seats, x))
    requires forall gid :: gid in groups ==> groups[gid] == Members(ps, gid)
    ensures forall gid, m :: gid in groups && m in groups[gid] ==>
      m.id in SolverChoice(ps, bus.seats, x) && SolverChoice(ps, bus.seats, x)[m.id] in bus.seatMap
  {
    var chosen := SolverChoice(ps, bus.seats, x);
    forall gid, m: Passenger | gid in groups && m in groups[gid]
      ensures m.id in chosen && chosen[m.id] in bus.seatMap
    {
      var j :| 0 <= j < |ps| && ps[j] == m;
    }
  }

  /** The entries of `assignment_details` built from the solver's choice: one per passenger id, each
      meeting the contract. */
  lemma {:induction false} OptimizedDetails(ps: seq<Passenger>, bus: BusLayout, x: set<(string, string)>,
                                            groups: map<string, seq<Passenger>>, distances: map<string, int>)
    requires WellFormed(bus) && IsFeasible(ps, bus, x)
    requires SatisfiesHardConstraints(ps, bus, SolverChoice(ps, bus.seats, x))
    requires groups.Keys == GroupKeys(ps) && forall gid :: gid in groups ==> groups[gid] == Members(ps, gid)
    requires forall gid, m :: gid in groups && m in groups[gid] ==>
      m.id in SolverChoice(ps, bus.seats, x) && SolverChoice(ps, bus.seats, x)[m.id] in bus.seatMap
    requires distances.Keys == groups.Keys
    requires forall gid :: gid in distances ==>
      IsMaxPairDistance(MemberSeats(groups[gid], bus, SolverChoice(ps, bus.seats, x)), distances[gid])
    ensures DetailsOf(ps, bus, SolverChoice(ps, bus.seats, x), distances).Keys == PassengerIds(ps)
    ensures forall i :: 0 <= i < |ps| && LastWithId(ps, i) ==>
      DetailMeetsContract(ps, bus, x, i, DetailsOf(ps, bus, SolverChoice(ps, bus.seats, x), distances)[ps[i].id])
  {
    var chosen := SolverChoice(ps, bus.seats, x);
    DetailsOfEntries(ps, bus, chosen, distances);
    forall i | 0 <= i < |ps| && LastWithId(ps, i)
      ensures DetailMeetsContract(ps, bus, x, i, DetailsOf(ps, bus, chosen, distances)[ps[i].id])
    {
      OptimizedDetail(ps, bus, x, groups, distances, i);
    }
  }

  /** What the hard constraints and the group distances tell the entry of passenger i. */
  ghost predicate DetailMeetsContract(ps: seq<Passenger>, bus: BusLayout, x: set<(string, string)>, i: nat, d: AssignmentDetail)
    requires i < |ps| && forall j :: 0 <= j < |ps| ==> |SeatsChosenFor(ps[j].id, bus.seats, x)| == 1
    requires SatisfiesHardConstraints(ps, bus, SolverChoice(ps, bus.seats, x))
  {
    && d.seatId == SeatsChosenFor(ps[i].id, bus.seats, x)[0]
    && d.seatId in bus.seatMap
    && Eligible(ps[i], bus.seatMap[d.seatId])
    && d.seatType == GetSeatType(bus.seatMap[d.seatId], bus)
    && d.normRow == Normalise(bus.seatMap[d.seatId].row, bus.rows)
    && d.normCol == Normalise(bus.seatMap[d.seatId].col, bus.cols)
    && (d.groupDistance.Some? <==> Truthy(ps[i].groupId))
    && (d.groupDistance.Some? ==>
          IsMaxPairDistance(MemberSeats(Members(ps, ps[i].groupId.value), bus, SolverChoice(ps, bus.seats, x)),
                            d.groupDistance.value))
  }

  /** The entry built for passenger i from the solver's choice meets the contract. */
  lemma {:induction false} OptimizedDetail(ps: seq<Passenger>, bus: BusLayout, x: set<(string, string)>,
                        groups: map<string, seq<Passenger>>, distances: map<string, int>, i: nat)
    requires WellFormed(bus) && IsFeasible(ps, bus, x) && i < |ps|
    requires SatisfiesHardConstraints(ps, bus, SolverChoice(ps, bus.seats, x))
    requires groups.Keys == GroupKeys(ps) && forall gid :: gid in groups ==> groups[gid] == Members(ps, gid)
    requires forall gid, m :: gid in groups && m in groups[gid] ==>
      m.id in SolverChoice(ps, bus.seats, x) && SolverChoice(ps, bus.seats, x)[m.id] in bus.seatMap
    requires distances.Keys == groups.Keys
    requires forall gid :: gid in distances ==>
      IsMaxPairDistance(MemberSeats(groups[gid], bus, SolverChoice(ps, bus.seats, x)), distances[gid])
    ensures DetailMeetsContract(ps, bus, x, i, DetailFor(ps[i], bus, SolverChoice(ps, bus.seats, x), distances))
  {
    var chosen := SolverChoice(ps, bus.seats, x);
    SeatInGrid(bus, chosen[ps[i].id]);
    var g := ps[i].groupId;
    if Truthy(g) {
      assert g.value in GroupKeys(ps);
    }
  }
}
