/**
 * The passenger list of a booking and the allocation round-trip (viewmodels/PassengerViewModel.kt): how
 * passengers are entered, how the service's seat assignments are written back onto them, and how the
 * allocation status moves.
 */
module PassengerViewModels {
  import opened Wrappers
  import opened Text
  import opened ClientData

  /** `enum class InputMode { NONE, MANUAL, CSV }`. */
  datatype InputMode = Unselected | Manual | Csv

  /** What the allocation call came back with. */
  datatype AllocationOutcome =
    /** An HTTP response: whether it is successful, its parsed body, and its error body. */
    | Response(successful: bool, body: Option<seq<SeatAssignment>>, errorBody: Option<string>)
    /** An exception with its (possibly null) message. */
    | Failure(message: Option<string>)

  /** The status shown while the request is in flight. */
  const Allocating: string := "Allocating..."

  /** The status after an allocation call. */
  function StatusAfter(outcome: AllocationOutcome): string {
    match outcome
    case Response(ok, body, errorBody) =>
      if ok && body.Some? then "Success" else "Error: " + errorBody.GetOr("Unknown Server Error")
    case Failure(message) => "Network Error: " + message.GetOr("null")
  }

  /** `it.passengerId == passenger.id || it.passengerId == passenger.id.take(8)`. */
  predicate Matches(a: SeatAssignment, p: Passenger) {
    a.passengerId == p.id || a.passengerId == Take(p.id, ShortIdLength)
  }

  /** `assignments.find { Matches(it, passenger) }`. */
  function FindAssignment(assignments: seq<SeatAssignment>, p: Passenger): (found: Option<SeatAssignment>)
    ensures found.None? <==> forall k :: 0 <= k < |assignments| ==> !Matches(assignments[k], p)
    ensures found.Some? ==> exists k :: 0 <= k < |assignments| && assignments[k] == found.value && Matches(found.value, p) &&
                                        forall j :: 0 <= j < k ==> !Matches(assignments[j], p)
    decreases |assignments|
  {
    if assignments == [] then None
    else if Matches(assignments[0], p) then Some(assignments[0])
    else
      var rest := FindAssignment(assignments[1..], p);
      assert forall k :: 1 <= k < |assignments| ==> assignments[k] == assignments[1..][k - 1];
      rest
  }

  /** The passenger with the seat of its assignment, if it has one. */
  function Seated(p: Passenger, assignments: seq<SeatAssignment>): Passenger {
    var a := FindAssignment(assignments, p);
    if a.Some? then p.(seatNumber := Some(a.value.seatLabel)) else p
  }

  /** The passenger list after `updatePassengerSeats`. */
  function SeatsApplied(ps: seq<Passenger>, assignments: seq<SeatAssignment>): seq<Passenger> {
    seq(|ps|, k requires 0 <= k < |ps| => Seated(ps[k], assignments))
  }

  /** The feedback requests `submitFeedback` sends: one per passenger with a seat, in passenger order. */
  function FeedbackFor(ps: seq<Passenger>, rating: int, rows: int, cols: int): seq<FeedbackRequest>
    decreases |ps|
  {
    if ps == [] then []
    else
      var rest := FeedbackFor(ps[..|ps| - 1], rating, rows, cols);
      var p := ps[|ps| - 1];
      if p.seatNumber.Some? then rest + [FeedbackRequest(p.id, rating, p.seatNumber.value, rows, cols)] else rest
  }

  /** `List(count) { Passenger() }`, the k-th passenger getting the fresh id `newId(k)`. */
  function DefaultPassengers(count: nat, newId: nat -> string): seq<Passenger> {
    seq(count, k requires 0 <= k => NewPassenger(newId(k)))
  }

  class PassengerViewModel {
    var passengers: seq<Passenger>
    var inputMode: InputMode
    var isFinished: bool
    var allocationStatus: Option<string>
    var navigateToNext: bool

    constructor()
      ensures passengers == [] && inputMode == Unselected && !isFinished
      ensures allocationStatus == None && !navigateToNext
    {
      passengers := [];
      inputMode := Unselected;
      isFinished := false;
      allocationStatus := None;
      navigateToNext := false;
    }

    /** `setInputMode`: choosing no mode also leaves the summary. */
    method SetInputMode(mode: InputMode)
      modifies this
      ensures inputMode == mode
      ensures isFinished == if mode == Unselected then false else old(isFinished)
      ensures passengers == old(passengers) && allocationStatus == old(allocationStatus)
      ensures navigateToNext == old(navigateToNext)
    {
      inputMode := mode;
      if mode == Unselected {
        isFinished := false;
      }
    }

    /** `initPassengers`: a positive count starts a fresh list of default passengers; others change nothing. */
    method InitPassengers(count: int, newId: nat -> string)
      modifies this
      ensures count > 0 ==> passengers == DefaultPassengers(count, newId) && !isFinished
      ensures count <= 0 ==> passengers == old(passengers) && isFinished == old(isFinished)
      ensures inputMode == old(inputMode) && allocationStatus == old(allocationStatus)
      ensures navigateToNext == old(navigateToNext)
    {
      if count > 0 {
        passengers := DefaultPassengers(count, newId);
        isFinished := false;
      }
    }

    /** `updatePassenger`: replaces the passenger at an in-range index; any other index changes nothing. */
    method UpdatePassenger(index: int, p: Passenger)
      modifies this
      ensures 0 <= index < |old(passengers)| ==> passengers == old(passengers)[index := p]
      ensures !(0 <= index < |old(passengers)|) ==> passengers == old(passengers)
      ensures inputMode == old(inputMode) && isFinished == old(isFinished)
      ensures allocationStatus == old(allocationStatus) && navigateToNext == old(navigateToNext)
    {
      var currentList := passengers;
      if 0 <= index < |currentList| {
        currentList := currentList[index := p];
        passengers := currentList;
      }
    }

    /** `setPassengersFromCsv`: takes the parsed list and goes straight to the summary. */
    method SetPassengersFromCsv(list: seq<Passenger>)
      modifies this
      ensures passengers == list && isFinished
      ensures inputMode == old(inputMode) && allocationStatus == old(allocationStatus)
      ensures navigateToNext == old(navigateToNext)
    {
      passengers := list;
      isFinished := true;
    }

    /** `markFinished`. */
    method MarkFinished()
      modifies this
      ensures isFinished
      ensures passengers == old(passengers) && inputMode == old(inputMode)
      ensures allocationStatus == old(allocationStatus) && navigateToNext == old(navigateToNext)
    {
      isFinished := true;
    }

    /** `reset`: clears the list, the mode, the summary flag and the status; the navigation flag is kept. */
    method Reset()
      modifies this
      ensures passengers == [] && inputMode == Unselected && !isFinished && allocationStatus == None
      ensures navigateToNext == old(navigateToNext)
    {
      passengers := [];
      inputMode := Unselected;
      isFinished := false;
      allocationStatus := None;
    }

    /** The first half of `allocateSeats`: shows the progress status and builds the request. */
    method StartAllocation(layout: VehicleLayout, pnrMillis: int, tripMillis: int) returns (request: SeatRequest)
      modifies this
      ensures allocationStatus == Some(Allocating)
      ensures request.tripId == "TRIP-" + IntToString(tripMillis)
      ensures request.vehicleConfig == VehicleConfig(layout.rows, layout.cols)
      ensures |request.passengers| == |passengers|
      ensures forall k :: 0 <= k < |passengers| ==>
        request.passengers[k] == ToApiRequest(passengers[k], "PNR-" + IntToString(pnrMillis))
      ensures passengers == old(passengers) && inputMode == old(inputMode) && isFinished == old(isFinished)
      ensures navigateToNext == old(navigateToNext)
    {
      allocationStatus := Some(Allocating);
      var pnr := "PNR-" + IntToString(pnrMillis);
      var currentPassengers := passengers;
      var apiPassengers := seq(|currentPassengers|, k requires 0 <= k < |currentPassengers| =>
                               ToApiRequest(currentPassengers[k], pnr));
      request := SeatRequest("TRIP-" + IntToString(tripMillis), VehicleConfig(layout.rows, layout.cols), apiPassengers);
    }

    /** The second half of `allocateSeats`: records the outcome of the call. */
    method FinishAllocation(outcome: AllocationOutcome)
      modifies this
      ensures allocationStatus == Some(StatusAfter(outcome))
      ensures outcome.Response? && outcome.successful && outcome.body.Some? ==>
        passengers == SeatsApplied(old(passengers), outcome.body.value) && navigateToNext
      ensures !(outcome.Response? && outcome.successful && outcome.body.Some?) ==>
        passengers == old(passengers) && navigateToNext == old(navigateToNext)
      ensures inputMode == old(inputMode) && isFinished == old(isFinished)
    {
      match outcome
      case Response(ok, body, errorBody) =>
        if ok && body.Some? {
          UpdatePassengerSeats(body.value);
          allocationStatus := Some("Success");
          navigateToNext := true;
        } else {
          var errorMsg := errorBody.GetOr("Unknown Server Error");
          allocationStatus := Some("Error: " + errorMsg);
        }
      case Failure(message) =>
        allocationStatus := Some("Network Error: " + message.GetOr("null"));
    }

    /** `allocateSeats`, with the two clock readings and the call's outcome as arguments. */
    method AllocateSeats(layout: VehicleLayout, pnrMillis: int, tripMillis: int, outcome: AllocationOutcome)
      returns (request: SeatRequest)
      modifies this
      ensures allocationStatus == Some(StatusAfter(outcome))
      ensures request.tripId == "TRIP-" + IntToString(tripMillis)
      ensures request.vehicleConfig == VehicleConfig(layout.rows, layout.cols)
      ensures |request.passengers| == |old(passengers)|
      ensures forall k :: 0 <= k < |old(passengers)| ==>
        request.passengers[k] == ToApiRequest(old(passengers)[k], "PNR-" + IntToString(pnrMillis))
      ensures outcome.Response? && outcome.successful && outcome.body.Some? ==>
        passengers == SeatsApplied(old(passengers), outcome.body.value) && navigateToNext
      ensures !(outcome.Response? && outcome.successful && outcome.body.Some?) ==>
        passengers == old(passengers) && navigateToNext == old(navigateToNext)
      ensures inputMode == old(inputMode) && isFinished == old(isFinished)
    {
      request := StartAllocation(layout, pnrMillis, tripMillis);
      FinishAllocation(outcome);
    }

    /** `updatePassengerSeats`: every passenger takes the seat of the first assignment that matches it. */
    method UpdatePassengerSeats(assignments: seq<SeatAssignment>)
      modifies this
      ensures passengers == SeatsApplied(old(passengers), assignments)
      ensures inputMode == old(inputMode) && isFinished == old(isFinished)
      ensures allocationStatus == old(allocationStatus) && navigateToNext == old(navigateToNext)
    {
      var currentList := passengers;
      var updatedList: seq<Passenger> := [];
      var i := 0;
      while i < |currentList|
        invariant 0 <= i <= |currentList|
        invariant |updatedList| == i
        invariant forall k :: 0 <= k < i ==> updatedList[k] == Seated(currentList[k], assignments)
      {
        var passenger := currentList[i];
        var assignment := FindAssignment(assignments, passenger);
        if assignment.Some? {
          updatedList := updatedList + [passenger.(seatNumber := Some(assignment.value.seatLabel))];
        } else {
          updatedList := updatedList + [passenger];
        }
        i := i + 1;
      }
      passengers := updatedList;
    }

    /** `onNavigationHandled`. */
    method OnNavigationHandled()
      modifies this
      ensures !navigateToNext && allocationStatus == None
      ensures passengers == old(passengers) && inputMode == old(inputMode) && isFinished == old(isFinished)
    {
      navigateToNext := false;
      allocationStatus := None;
    }

    /** `submitFeedback`: one request per seated passenger, then the booking is reset. */
    method SubmitFeedback(rating: int, rows: int, cols: int) returns (sent: seq<FeedbackRequest>)
      modifies this
      ensures sent == FeedbackFor(old(passengers), rating, rows, cols)
      ensures passengers == [] && inputMode == Unselected && !isFinished && allocationStatus == None
      ensures navigateToNext == old(navigateToNext)
    {
      var currentPassengers := passengers;
      sent := [];
      var i := 0;
      while i < |currentPassengers|
        invariant 0 <= i <= |currentPassengers|
        invariant sent == FeedbackFor(currentPassengers[..i], rating, rows, cols)
      {
        var passenger := currentPassengers[i];
        assert currentPassengers[..i + 1][..i] == currentPassengers[..i];
        if passenger.seatNumber.Some? {
          var req := FeedbackRequest(passenger.id, rating, passenger.seatNumber.value, rows, cols);
          sent := sent + [req];
        }
        i := i + 1;
      }
      assert currentPassengers[..i] == currentPassengers;
      Reset();
    }
  }

  // ---- properties ----

  /** The id sent to the service always matches its passenger, so the passenger's own assignment is found. */
  lemma {:induction false} ApiIdMatches(p: Passenger, pnr: string, seatLabel: string, seatType: string,
                                        groupId: Option<string>)
    ensures Matches(SeatAssignment(ToApiRequest(p, pnr).id, seatLabel, seatType, groupId), p)
  {
  }

  /** A passenger for whom some assignment matches is given the seat of the first one; others are unchanged. */
  lemma {:induction false} SeatedProperties(ps: seq<Passenger>, assignments: seq<SeatAssignment>, i: nat)
    requires i < |ps|
    ensures |SeatsApplied(ps, assignments)| == |ps|
    ensures SeatsApplied(ps, assignments)[i] == ps[i].(seatNumber := SeatsApplied(ps, assignments)[i].seatNumber)
    ensures (forall k :: 0 <= k < |assignments| ==> !Matches(assignments[k], ps[i])) ==>
      SeatsApplied(ps, assignments)[i] == ps[i]
    ensures forall k :: (0 <= k < |assignments| && Matches(assignments[k], ps[i]) &&
                         (forall j :: 0 <= j < k ==> !Matches(assignments[j], ps[i]))) ==>
      SeatsApplied(ps, assignments)[i].seatNumber == Some(assignments[k].seatLabel)
  {
    var a := FindAssignment(assignments, ps[i]);
    forall k | 0 <= k < |assignments| && Matches(assignments[k], ps[i]) &&
               (forall j :: 0 <= j < k ==> !Matches(assignments[j], ps[i]))
      ensures SeatsApplied(ps, assignments)[i].seatNumber == Some(assignments[k].seatLabel)
    {
      var k' :| 0 <= k' < |assignments| && assignments[k'] == a.value && Matches(a.value, ps[i])
        && forall j :: 0 <= j < k' ==> !Matches(assignments[j], ps[i]);
      assert k' == k;
    }
  }

  /** A passenger sent to the service and answered with an assignment under its short id gets that seat. */
  lemma {:induction false} AnsweredPassengerSeated(ps: seq<Passenger>, pnr: string, assignments: seq<SeatAssignment>,
                                                   i: nat, k: nat)
    requires i < |ps| && k < |assignments|
    requires assignments[k].passengerId == ToApiRequest(ps[i], pnr).id
    requires forall j :: 0 <= j < k ==> !Matches(assignments[j], ps[i])
    ensures SeatsApplied(ps, assignments)[i].seatNumber == Some(assignments[k].seatLabel)
  {
    SeatedProperties(ps, assignments, i);
  }

  /** A feedback request is sent for a passenger exactly when it has a seat, with that seat and the given rating. */
  lemma {:induction false} FeedbackForSeated(ps: seq<Passenger>, rating: int, rows: int, cols: int)
    ensures |FeedbackFor(ps, rating, rows, cols)| <= |ps|
    ensures forall r :: r in FeedbackFor(ps, rating, rows, cols) ==>
      r.rating == rating && r.totalRows == rows && r.totalCols == cols &&
      exists p :: p in ps && p.seatNumber == Some(r.seatLabel) && p.id == r.passengerId
    ensures forall p :: p in ps && p.seatNumber.Some? ==>
      FeedbackRequest(p.id, rating, p.seatNumber.value, rows, cols) in FeedbackFor(ps, rating, rows, cols)
    decreases |ps|
  {
    if ps != [] {
      var init := ps[..|ps| - 1];
      FeedbackForSeated(init, rating, rows, cols);
      assert ps == init + [ps[|ps| - 1]];
    }
  }

  /** The status after a call is exactly one of success, a server error and a network error, as the outcome says. */
  lemma {:induction false} StatusKinds(outcome: AllocationOutcome)
    ensures var s := StatusAfter(outcome);
      && (s == "Success" <==> outcome.Response? && outcome.successful && outcome.body.Some?)
      && (StartsWith(s, "Error: ") <==> outcome.Response? && !(outcome.successful && outcome.body.Some?))
      && (StartsWith(s, "Network Error: ") <==> outcome.Failure?)
      && s != Allocating
  {
    var s := StatusAfter(outcome);
    assert "Success"[0] == 'S' && "Error: "[0] == 'E' && "Network Error: "[0] == 'N' && Allocating[0] == 'A';
    if outcome.Failure? {
      assert s[0] == 'N';
      assert s[..15] == "Network Error: ";
    } else if s == "Success" {
      assert s[0] == 'S';
    } else {
      assert s[0] == 'E';
      assert s[..7] == "Error: ";
    }
  }
}
