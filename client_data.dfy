/**
 * The data shapes of the Android client (util/PassengerData.kt, util/SeatData.kt and the request and
 * response types the view models exchange with the allocation service). The client talks to the service
 * in short passenger ids: `toApiRequest` keeps the first eight characters of the passenger's UUID.
 */
module ClientData {
  import opened Wrappers
  import opened Text

  /** The number of values of Kotlin's `0 until n`. */
  function RangeSize(n: int): nat {
    if n < 0 then 0 else n
  }

  /** A resolved map location. */
  datatype Location = Location(lat: real, lng: real)

  /**
   * `data class Passenger`. The default id is a fresh `UUID.randomUUID()`; the model takes the id as an
   * argument instead, and every other field carries the client's default.
   */
  datatype Passenger = Passenger(
    id: string,
    name: string := "",
    age: int := 18,
    gender: string := "Male",
    disability: string := "None",
    groupId: Option<string> := None,
    seatNumber: Option<string> := None,
    pickupLocation: Option<Location> := None,
    dropLocation: Option<Location> := None,
    pickupStopId: Option<string> := None,
    dropStopId: Option<string> := None)

  /** `Passenger()` with the generated id `id`. */
  function NewPassenger(id: string): (p: Passenger)
    ensures p.id == id && p.name == [] && p.age == 18
    ensures p.gender == "Male" && p.disability == "None"
    ensures p.groupId == None && p.seatNumber == None && p.pickupLocation == None && p.dropLocation == None
    ensures p.pickupStopId == None && p.dropStopId == None
  {
    Passenger(id)
  }

  /** The passenger as the allocation service receives it. */
  datatype PassengerApiRequest = PassengerApiRequest(id: string, pnr: string, name: string, age: int, gender: string,
                                                     groupId: string)

  /** The group id sent for a passenger in no group. */
  const DefaultGroupId: string := "GRP-DEFAULT"

  /** The number of leading id characters the service receives. */
  const ShortIdLength: nat := 8

  /** `toApiRequest(pnr)`. */
  function ToApiRequest(p: Passenger, pnr: string): (r: PassengerApiRequest)
    ensures |r.id| == if |p.id| < ShortIdLength then |p.id| else ShortIdLength
    ensures r.id == p.id[..|r.id|]
    ensures r.pnr == pnr && r.name == p.name && r.age == p.age && r.gender == p.gender
    ensures p.groupId.Some? ==> r.groupId == p.groupId.value
    ensures p.groupId.None? ==> r.groupId == DefaultGroupId
  {
    PassengerApiRequest(Take(p.id, ShortIdLength), pnr, p.name, p.age, p.gender, p.groupId.GetOr(DefaultGroupId))
  }

  /** The group id the client does not count as a group. */
  const UngroupedId: string := "GRP-001"

  /** `!groupId.isNullOrEmpty() && groupId != "GRP-001"`: the id names a real group. */
  predicate IsRealGroup(groupId: Option<string>) {
    groupId.Some? && groupId.value != "" && groupId.value != UngroupedId
  }

  /** One seat of an allocation, as the service returns it and the booking history stores it. */
  datatype SeatAssignment = SeatAssignment(passengerId: string, seatLabel: string, seatType: string,
                                           groupId: Option<string>)

  /** The rows and columns of the vehicle sent with an allocation request. */
  datatype VehicleConfig = VehicleConfig(rows: int, cols: int)

  /** The allocation request: a trip id, the vehicle and the passengers. */
  datatype SeatRequest = SeatRequest(tripId: string, vehicleConfig: VehicleConfig, passengers: seq<PassengerApiRequest>)

  /** A rating of an assigned seat. */
  datatype FeedbackRequest = FeedbackRequest(passengerId: string, rating: int, seatLabel: string, totalRows: int,
                                             totalCols: int)

  /** `enum class SeatType`. */
  datatype SeatType = Regular | Window | Aisle | Accessible

  /** `data class Seat` of the client's own layout. */
  datatype Seat = Seat(row: int, col: int, seatNumber: string, isAvailable: bool := true, isReserved: bool := false,
                       seatType: SeatType := Regular)

  /** `data class VehicleLayout`. */
  datatype VehicleLayout = VehicleLayout(rows: int, cols: int, seats: seq<Seat>, vehicleType: string)

  /** The vehicle stored with a booking. */
  datatype VehicleReq = VehicleReq(rows: int, cols: int, vehicleType: string)

  /** One entry of the booking history. */
  datatype BookingHistoryItem = BookingHistoryItem(id: string, tripId: string, vehicle: VehicleReq,
                                                   assignments: seq<SeatAssignment>, createdAt: string)

  /** One autocomplete suggestion of the places service. */
  datatype Prediction = Prediction(description: string, placeId: string)

  /** The places service's autocomplete answer. */
  datatype PlacesResponse = PlacesResponse(predictions: seq<Prediction>, status: string)
}
