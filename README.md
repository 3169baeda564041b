# SmartBus-AI seat allocation, in Dafny

SmartBus-AI seats the passengers of a bus trip. It has two parts.

- **The allocation service** (Python) builds a bus layout: a grid of seats labelled `1A`, `1B`, and so on.
  - The first rows are an accessibility zone; some rows are female-only.
  - The layout also knows which seats are neighbours, with an aisle gap splitting each row.
  - A MILP solver then picks one seat per passenger under hard constraints:
    - one seat each;
    - no two passengers whose trips overlap on the same seat;
    - no male passenger in the female-only zone;
    - only disabled or senior passengers in the accessibility zone;
    - wheelchair users only there.
  - The service reports the chosen seat of every passenger with its seat type ("front", "window" or "aisle"), its normalised row and column, and its group's spread.
  - It can explain an assignment in a few bullet lines.
- **The Android client** (Kotlin) collects the passengers, manually or from a CSV file, and lets the user form groups.
  - It asks for the vehicle's dimensions, sends the allocation request, seats the passengers from the answer and draws the seat map.
  - It also searches departure, destination and intermediate stops in a places service, and shows the booking history with occupancy figures.

The model has one Dafny module per source file. `integrated_seat_ml_model.py` is split into two modules: `bus_layout.dfy` for the data structures, seat grid and adjacency, and `allocation.dfy` for the hard constraints and the post-processing of a solution.

Where the source mutates state, the model keeps that form:
- the three Kotlin view models are classes whose methods modify their fields;
- the Compose screen state (the manual-entry index, the summary's selection) is a class too;
- the Python and Kotlin loops are methods with loop invariants.

Each of these is proved against a specification function, and the source's promises are proved about that function as lemmas. Pure code (seat types, labels, explanations, counts, colours) is written as functions and lemmas.

Shared helpers:
- `wrappers.dfy`: an `Option` type.
- `text.dfy`: decimal strings, Kotlin's `toIntOrNull`, `trim`, `split`/`join`, ASCII case mapping.
- `seat_labels.dfy`: the one seat-label function that both halves use, and its parser.
- `client_data.dfy`: the client's data classes.

## Model

| member | source | states |
|---|---|---|
| BusModel.WheelchairIsDisabled | models/SmartBus-AI/src/integrated_seat_ml_model.py:22-23 | a passenger who requires the disability zone (disability "wheelchair", any case) is also disabled (disability not "none") |
| BusModel.GenerateSeats | models/SmartBus-AI/src/integrated_seat_ml_model.py:48-56 | the seats are the rows-by-cols grid in row-major order; seat k is at row k / cols, column k % cols, has id `f"{r+1}{chr(65+c)}"`, is accessible and in the disability zone exactly in the first `accessibility_rows` rows, otherwise female-only in the female rows, otherwise general; a negative dimension gives no seats |
| BusModel.GridSeatAtIndex | models/SmartBus-AI/src/integrated_seat_ml_model.py:48-56 | the k-th generated seat lies at an in-range position and is the seat built for that position |
| BusModel.GridSeatAtCell | models/SmartBus-AI/src/integrated_seat_ml_model.py:48-56 | the seat built for every in-range (row, col) appears in the list, at index row * cols + col |
| BusModel.GridElement | models/SmartBus-AI/src/integrated_seat_ml_model.py:48-56 | every generated seat lies inside the grid and is the seat built for its own row and column |
| BusModel.GridIsLabelled | models/SmartBus-AI/src/integrated_seat_ml_model.py:52 | every generated seat has an in-range position and the label of that position as its id |
| BusModel.SeatMapOfElements | models/SmartBus-AI/src/integrated_seat_ml_model.py:45 | `seat_map` maps every id to a seat of the list carrying that id, and every seat's id is a key |
| BusModel.SeatMapOfGridKeys | models/SmartBus-AI/src/integrated_seat_ml_model.py:45 | over a generated grid every key of `seat_map` parses as the label of an in-range position and maps to the seat built there |
| BusModel.SeatMapOfGridCells | models/SmartBus-AI/src/integrated_seat_ml_model.py:45 | over a generated grid the label of every in-range position is a key of `seat_map`, mapping to the seat at that position |
| BusModel.PositionMapOfLabelled | models/SmartBus-AI/src/integrated_seat_ml_model.py:63 | `seats_by_pos` has exactly the seats' positions as keys, each in range and mapped to its label |
| BusModel.PositionMapOfGrid | models/SmartBus-AI/src/integrated_seat_ml_model.py:63 | over a generated grid a position is a key of `seats_by_pos` exactly when it is inside the grid, and it maps to its label |
| BusModel.StrLessTotal | models/SmartBus-AI/src/integrated_seat_ml_model.py:67 | Python's string order is total and asymmetric on distinct strings, so `sorted` on two ids is well defined |
| BusModel.StrLessIrreflexive | models/SmartBus-AI/src/integrated_seat_ml_model.py:67 | no string sorts before itself |
| BusModel.SortedPair | models/SmartBus-AI/src/integrated_seat_ml_model.py:67 | `tuple(sorted((a, b)))` holds the two ids, the smaller first when they differ |
| BusModel.HorizontalPairSound | models/SmartBus-AI/src/integrated_seat_ml_model.py:66-67 | the pair of a seat and its right-hand neighbour, when the aisle is not between them, is a sorted pair of neighbouring seats of the layout |
| BusModel.VerticalPairSound | models/SmartBus-AI/src/integrated_seat_ml_model.py:69-70 | the pair of a seat and the seat behind it is a sorted pair of neighbouring seats of the layout |
| BusModel.NeighbourKeys | models/SmartBus-AI/src/integrated_seat_ml_model.py:63-70 | the right-hand and rear positions of a seat are in `seats_by_pos` exactly when they are inside the grid, and the pairs formed with them are the horizontal and vertical pairs of that position |
| BusModel.ComputeAdjacents | models/SmartBus-AI/src/integrated_seat_ml_model.py:58-71 | every pair added is a sorted pair of distinct seats of the layout that are side by side without the aisle between them, or one behind the other (soundness); and every such pair of the grid is added (completeness) |
| BusModel.NewBusLayout | models/SmartBus-AI/src/integrated_seat_ml_model.py:35-46 | the constructor stores its arguments, defaults `gender_zones` to {"female": [2, 3]}, and builds seats, `seat_map` and `adjacent_pairs` as above |
| BusModel.SeatZones | models/SmartBus-AI/src/integrated_seat_ml_model.py:53-54 | a seat is accessible exactly when it is in the disability zone, exactly when its row is below `accessibility_rows`; it is female-only exactly when it is past those rows and its row is a female row |
| BusModel.SeatMapLabels | models/SmartBus-AI/src/integrated_seat_ml_model.py:44-56 | an id is in `seat_map` exactly when it parses as the label of a position inside the grid, and the seat stored there has that row and column |
| BusModel.SeatInGrid | models/SmartBus-AI/src/integrated_seat_ml_model.py:44-56 | every seat of `seat_map` lies inside the grid and is stored under its own id |
| BusModel.SeatLabelMembers | models/SmartBus-AI/src/integrated_seat_ml_model.py:52 | the seat stored under the label of (row, col) is at row `row` and column `col` |
| BusModel.AisleSplitsRow | models/SmartBus-AI/src/integrated_seat_ml_model.py:66 | the two seats on either side of the aisle never form an adjacent pair |
| BusModel.AdjacentPairsOrdered | models/SmartBus-AI/src/integrated_seat_ml_model.py:67 | no adjacent pair joins a seat to itself, and no pair is stored in both orders |
| SeatTypes.SeatTypeCases | models/SmartBus-AI/src/utils.py:6-14 | the type is one of "front", "window", "aisle": "front" exactly in the accessibility rows, else "window" exactly in the first or last column, else "aisle" |
| SeatTypes.NoAisleInNarrowBus | models/SmartBus-AI/src/utils.py:12-14 | in a layout at most two seats wide no seat is classified "aisle" |
| SeatTypes.FrontIsDisabilityZone | models/SmartBus-AI/src/utils.py:10-11 | for the seats of a layout, "front" is exactly the disability zone |
| SeatTypes.ProductionSeatTypes | models/SmartBus-AI/src/api.py:67 | with the service's layout (three accessibility rows) every in-range label is a seat; its first three rows are "front", the outer columns after them "window" and the inner ones "aisle", whatever `aisle_after` is |
| SeatLabels.ColumnLetter | models/SmartBus-AI/src/integrated_seat_ml_model.py:52 | `chr(65 + c)`: the character with code 65 + c |
| SeatLabels.SeatLabelShape | models/SmartBus-AI/src/integrated_seat_ml_model.py:52 | a label is the decimal row number (no leading zero) followed by one non-digit column letter |
| SeatLabels.SeatLabelRoundTrip | models/SmartBus-AI/src/integrated_seat_ml_model.py:52 | parsing the label of (row, col) gives back (row, col) |
| SeatLabels.ParseSeatLabelSound | models/SmartBus-AI/src/integrated_seat_ml_model.py:52 | every string that parses as a label is the label of the position it parses to |
| SeatLabels.SeatLabelInjective | models/SmartBus-AI/src/integrated_seat_ml_model.py:52 | distinct positions have distinct labels |
| Allocation.SeatsChosenFor | models/SmartBus-AI/src/integrated_seat_ml_model.py:86-87 | the seats whose variable is 1 for a passenger (see `ChosenSeatListed` and `ListedSeatChosen`); there are at most as many as seats |
| Allocation.SolverChoiceSatisfies | models/SmartBus-AI/src/integrated_seat_ml_model.py:86-102 | a solution meeting the hard constraints (one seat each; no shared seat for overlapping trips; the three zone rules) gives every passenger a seat of `seat_map` that satisfies them |
| Allocation.TripsOverlapSymmetric | models/SmartBus-AI/src/integrated_seat_ml_model.py:90-93 | the trip-overlap test does not depend on the order of the two passengers |
| Allocation.SharedSeatMeansDisjointTrips | models/SmartBus-AI/src/integrated_seat_ml_model.py:89-93 | two distinct passengers on the same seat have trips that do not overlap |
| Allocation.MaleNotInFemaleZone | models/SmartBus-AI/src/integrated_seat_ml_model.py:97-98 | a passenger whose gender lower-cases to "male" never sits in a female-only seat, so either in the accessibility rows or outside the female rows |
| Allocation.AbleBodiedNotInDisabilityZone | models/SmartBus-AI/src/integrated_seat_ml_model.py:99-100 | a passenger neither disabled nor 60 or older never sits in the disability zone, hence past the accessibility rows and not on a "front" seat |
| Allocation.WheelchairSeated | models/SmartBus-AI/src/integrated_seat_ml_model.py:101-102 | a wheelchair user sits in the disability zone, on an accessible seat of an accessibility row, whose type is "front" |
| Allocation.CollectChosen | models/SmartBus-AI/src/integrated_seat_ml_model.py:195-198 | the collected map has only passenger ids as keys, each mapped to a seat id whose variable is 1, and every passenger with some variable equal to 1 is a key |
| Allocation.ChosenSeatListed | models/SmartBus-AI/src/integrated_seat_ml_model.py:195-198 | a seat whose variable is 1 is among the seats chosen for that passenger |
| Allocation.ListedSeatChosen | models/SmartBus-AI/src/integrated_seat_ml_model.py:195-198 | every seat chosen for a passenger has its variable equal to 1 and is a seat of the layout |
| Allocation.CollectedIsSolverChoice | models/SmartBus-AI/src/integrated_seat_ml_model.py:195-198 | when each passenger has exactly one variable equal to 1, the collected map is exactly that choice |
| Allocation.SeatMapAtSeats | models/SmartBus-AI/src/integrated_seat_ml_model.py:45 | each seat of a layout is the `seat_map` value at its own id |
| Allocation.Members | models/SmartBus-AI/src/integrated_seat_ml_model.py:106-109 | the members of a group are passengers of the list carrying that group id, in list order |
| Allocation.BuildGroupDict | models/SmartBus-AI/src/integrated_seat_ml_model.py:106-109 | `group_dict` has exactly the truthy group ids as keys, each mapped to its members in passenger order |
| Allocation.MembersOutsideKeys | models/SmartBus-AI/src/integrated_seat_ml_model.py:106-109 | a non-empty id no passenger carries has no members |
| Allocation.GroupsNonEmpty | models/SmartBus-AI/src/integrated_seat_ml_model.py:106-109 | every group of `group_dict` has at least one member |
| Allocation.GroupMembersSeated | models/SmartBus-AI/src/integrated_seat_ml_model.py:203 | every member of a group has a chosen seat in `seat_map`, so `bus.seat_map[chosen[p.id]]` is defined |
| Allocation.GroupDistance | models/SmartBus-AI/src/integrated_seat_ml_model.py:204-209 | `maxd` is the largest Manhattan distance between two of the group's seats, and 0 when there are fewer than two |
| Allocation.SingleMemberDistance | models/SmartBus-AI/src/integrated_seat_ml_model.py:204-209 | a group of one has distance 0 |
| Allocation.MaxPairDistanceUnique | models/SmartBus-AI/src/integrated_seat_ml_model.py:204-209 | the maximum pair distance is unique |
| Allocation.GroupDistanceBound | models/SmartBus-AI/src/integrated_seat_ml_model.py:207 | the distance of seats of a layout is at most rows + cols - 2 |
| Allocation.GroupDistances | models/SmartBus-AI/src/integrated_seat_ml_model.py:201-210 | `group_distances` has the keys of `group_dict`, each mapped to the maximum pair distance of that group's seats |
| Allocation.NormaliseBounds | models/SmartBus-AI/src/integrated_seat_ml_model.py:219-220 | a normalised coordinate lies in [0, 1]; it is 0 for a single row or column and at the first line, and 1 exactly at the last line |
| Allocation.DetailsOfEntries | models/SmartBus-AI/src/integrated_seat_ml_model.py:212-223 | `assignment_details` has one entry per passenger id, the one of the last passenger with that id |
| Allocation.AssignmentDetails | models/SmartBus-AI/src/integrated_seat_ml_model.py:212-223 | the loop builds `assignment_details` entry by entry, a later passenger overwriting an earlier one with the same id |
| Allocation.OptimizedDetails | models/SmartBus-AI/src/integrated_seat_ml_model.py:212-223 | built from the solver's choice, every entry has the chosen seat, an eligible seat, its seat type, both normalised coordinates, and a group distance exactly for passengers with a truthy group id, equal to the maximum pair distance of that group |
| Allocation.OptimizedDetail | models/SmartBus-AI/src/integrated_seat_ml_model.py:214-221 | the same facts for the entry of one passenger |
| Allocation.OptimizeSeating | models/SmartBus-AI/src/integrated_seat_ml_model.py:191-225 | it raises `PulpError` exactly when two constraints get the same name (lines 87 and 93); otherwise a status other than optimal returns `{}`, and an optimal one returns an entry for exactly the passenger ids, each meeting the hard constraints and the entry facts above |
| Allocation.DistinctIdsLast | models/SmartBus-AI/src/integrated_seat_ml_model.py:86-93 | when no constraint name `oneSeat_{p.id}` repeats, no two passengers share an id, so every passenger's entry is its own |
| Explain.ExplainAssignment | models/SmartBus-AI/src/explain_utils.py:8-34 | the text is the header line followed by the line of each reason, joined with newlines |
| Explain.ZoneMembers | models/SmartBus-AI/src/explain_utils.py:23-29 | in the disability zone the wheelchair reason comes exactly for a wheelchair user, the accessible-seat reason exactly for another disabled passenger, and the senior reason exactly for a non-disabled passenger of 60 or more |
| Explain.ReasonsPresent | models/SmartBus-AI/src/explain_utils.py:11-29 | each reason is given exactly when its condition holds: personalised, truthy group id, truthy prediction equal to the seat type, female passenger in a female-only seat, and the three disability-zone cases |
| Explain.StandardOnlyAlone | models/SmartBus-AI/src/explain_utils.py:31-32 | there is always at least one reason; the standard line is given exactly when no other one applies, and then alone |
| Explain.OneZoneReason | models/SmartBus-AI/src/explain_utils.py:23-29 | at most one reason concerns the disability zone, only on a seat of that zone, and there are at most five reasons |
| Explain.ExplanationLines | models/SmartBus-AI/src/explain_utils.py:34 | when the ids, the disability and the predicted type hold no newline, splitting the text at newlines gives back the header and the reason lines, one line per reason |
| Explain.QuotedTexts | models/SmartBus-AI/src/explain_utils.py:16-29 | the only texts quoted by a reason are the predicted seat type and the passenger's disability |
| Explain.HeaderSingle | models/SmartBus-AI/src/explain_utils.py:9 | the header holds no newline when the passenger and seat ids hold none |
| Explain.IntToStringDigits | models/SmartBus-AI/src/explain_utils.py:9 | the printed age holds no newline |
| Explain.WheelchairExplained | models/SmartBus-AI/src/explain_utils.py:23-25 | with a solution meeting the hard constraints, a wheelchair user's explanation always has the mandatory-access line and never the standard line |
| Explain.AbleBodiedNoZoneReason | models/SmartBus-AI/src/explain_utils.py:23-29 | with a solution meeting the hard constraints, a passenger neither disabled nor a senior gets no disability-zone reason |
| ExplainLines.FixedLinePersonalized | models/SmartBus-AI/src/explain_utils.py:12 | the personalised line is a single line with its own key characters |
| ExplainLines.FixedLineGroup | models/SmartBus-AI/src/explain_utils.py:14 | the group-cohesion line is a single line with its own key characters |
| ExplainLines.FixedLineFemaleZone | models/SmartBus-AI/src/explain_utils.py:21 | the female-zone line is a single line with its own key characters |
| ExplainLines.FixedLineWheelchair | models/SmartBus-AI/src/explain_utils.py:25 | the mandatory-access line is a single line with its own key characters |
| ExplainLines.FixedLineSenior | models/SmartBus-AI/src/explain_utils.py:29 | the senior-priority line is a single line with its own key characters |
| ExplainLines.FixedLineStandard | models/SmartBus-AI/src/explain_utils.py:32 | the standard-assignment line is a single line with its own key characters |
| ExplainLines.QuotingLineModel | models/SmartBus-AI/src/explain_utils.py:18 | the model-match line is a fixed prefix, the predicted type, and a full stop |
| ExplainLines.QuotingLineAccessible | models/SmartBus-AI/src/explain_utils.py:27 | the accessible-seat line is a fixed prefix, the disability, and a full stop |
| ExplainLines.LineFacts | models/SmartBus-AI/src/explain_utils.py:11-32 | each reason line carries the key characters of its kind and the text it quotes, and holds a newline only where that text does |
| ExplainLines.ReasonLineInjective | models/SmartBus-AI/src/explain_utils.py:11-32 | different reasons print different lines, so the reasons can be read back from the text |
| ExplainLines.ReasonLineSingle | models/SmartBus-AI/src/explain_utils.py:11-32 | a reason line is a single line whenever the text it quotes is |
| ExplainLines.ReasonLinesSingle | models/SmartBus-AI/src/explain_utils.py:11-32 | all reason lines are single lines whenever the texts they quote are |
| Text.NatToString | models/SmartBus-AI/src/integrated_seat_ml_model.py:52 | the decimal form of a number is a non-empty digit string with no leading zero ("0" for zero) |
| Text.NatToStringRoundTrip | models/SmartBus-AI/src/integrated_seat_ml_model.py:52 | reading the decimal form back gives the number |
| Text.NatToStringInjective | models/SmartBus-AI/src/integrated_seat_ml_model.py:52 | distinct numbers print differently |
| Text.ParseDigitsRoundTrip | models/SmartBus-AI/src/integrated_seat_ml_model.py:52 | every canonical digit string is the decimal form of its value |
| Text.ParseInt | frontend/SmartBus_AI_Project/app/src/main/java/com/example/smartbusai/ui/passengers/PassengerSelectionScreen.kt:782 | `toIntOrNull` yields only values in the 32-bit range |
| Text.ParseIntOfDigits | frontend/SmartBus_AI_Project/app/src/main/java/com/example/smartbusai/ui/passengers/PassengerSelectionScreen.kt:782 | on a digit string `toIntOrNull` fails exactly on the empty string and on overflow, and otherwise gives the number written |
| Text.ParseIntOfNatToString | frontend/SmartBus_AI_Project/app/src/main/java/com/example/smartbusai/ui/passengers/PassengerSelectionScreen.kt:782 | `toIntOrNull` reads back the decimal form of every number in the 32-bit range |
| Text.ParseIntOfSigned | frontend/SmartBus_AI_Project/app/src/main/java/com/example/smartbusai/ui/passengers/PassengerSelectionScreen.kt:782 | a '+' or '-' followed by digits gives the signed value when it is in the 32-bit range, and null otherwise |
| Text.ParseIntRejects | frontend/SmartBus_AI_Project/app/src/main/java/com/example/smartbusai/ui/passengers/PassengerSelectionScreen.kt:782 | `toIntOrNull` is null on "", "+", "-" and on every string with a non-digit after the optional sign |
| Text.ParseIntAccepts | frontend/SmartBus_AI_Project/app/src/main/java/com/example/smartbusai/ui/passengers/PassengerSelectionScreen.kt:782 | every number `toIntOrNull` returns was written as an optional sign and at least one digit, and is their signed value |
| Text.TrimStart | frontend/SmartBus_AI_Project/app/src/main/java/com/example/smartbusai/ui/passengers/PassengerSelectionScreen.kt:776 | leading whitespace removed: a suffix of the input, everything before it whitespace, and not starting with whitespace |
| Text.TrimEnd | frontend/SmartBus_AI_Project/app/src/main/java/com/example/smartbusai/ui/passengers/PassengerSelectionScreen.kt:776 | trailing whitespace removed: a prefix of the input, everything after it whitespace, and not ending with whitespace |
| Text.Split | frontend/SmartBus_AI_Project/app/src/main/java/com/example/smartbusai/ui/passengers/PassengerSelectionScreen.kt:776 | `split(",")` always yields at least one piece |
| Text.SplitPiecesLackSeparator | frontend/SmartBus_AI_Project/app/src/main/java/com/example/smartbusai/ui/passengers/PassengerSelectionScreen.kt:776 | no piece of a split holds the separator |
| Text.JoinSplit | models/SmartBus-AI/src/explain_utils.py:34 | joining the pieces of a split gives back the string |
| Text.SplitJoin | models/SmartBus-AI/src/explain_utils.py:34 | splitting a join of separator-free pieces gives back the pieces |
| Text.JoinHasSeparator | models/SmartBus-AI/src/explain_utils.py:34 | joining two or more pieces puts a separator in the text |
| Text.AsciiLower | models/SmartBus-AI/src/integrated_seat_ml_model.py:22 | `lower()`: same length, no ASCII capital left, and every changed character a capital moved up 32 to its small letter |
| Text.AsciiUpper | frontend/SmartBus_AI_Project/app/src/main/java/com/example/smartbusai/ui/history/Bookings.kt:169 | `uppercase()`: same length, no ASCII small letter left, and every changed character a small letter moved down 32 to its capital |
| Text.AsciiLowerIdempotent | models/SmartBus-AI/src/integrated_seat_ml_model.py:22 | lower-casing an already lower-cased string changes nothing |
| Text.AsciiUpperIdempotent | frontend/SmartBus_AI_Project/app/src/main/java/com/example/smartbusai/ui/history/Bookings.kt:169 | upper-casing an already upper-cased string changes nothing |
| Text.AsciiLowerOfUpper | models/SmartBus-AI/src/integrated_seat_ml_model.py:22-23 | a comparison through `lower()` gives the same answer on the upper-cased string |
| Text.AsciiUpperOfLower | frontend/SmartBus_AI_Project/app/src/main/java/com/example/smartbusai/ui/history/Bookings.kt:169 | `uppercase()` gives the same result on the lower-cased string |
| ClientData.NewPassenger | frontend/SmartBus_AI_Project/app/src/main/java/com/example/smartbusai/util/PassengerData.kt:7-19 | `Passenger()` has the generated id, an empty name, age 18, gender "Male", disability "None" and no group, seat, locations or stops |
| ClientData.ToApiRequest | frontend/SmartBus_AI_Project/app/src/main/java/com/example/smartbusai/util/PassengerData.kt:24-33 | the request carries the first eight characters of the id (all of a shorter one), the PNR, name, age and gender, and the group id or "GRP-DEFAULT" |
| LayoutViewModels.LayoutViewModel.constructor | frontend/SmartBus_AI_Project/app/src/main/java/com/example/smartbusai/viewmodels/LayoutViewModel.kt:13-14 | no layout is set at first |
| LayoutViewModels.LayoutViewModel.SetLayout | frontend/SmartBus_AI_Project/app/src/main/java/com/example/smartbusai/viewmodels/LayoutViewModel.kt:17-45 | the stored layout has the given rows, columns and type, and lists the rows-by-cols seats in row-major order, each available, labelled like the service's seats and typed by its column |
| LayoutViewModels.LayoutSeatAt | frontend/SmartBus_AI_Project/app/src/main/java/com/example/smartbusai/viewmodels/LayoutViewModel.kt:19-41 | the seat at an in-range (row, col) is at index row * cols + col with that row, column and label |
| LayoutViewModels.LayoutSeatInRange | frontend/SmartBus_AI_Project/app/src/main/java/com/example/smartbusai/viewmodels/LayoutViewModel.kt:19-41 | every seat is at an in-range position, at row k / cols and column k % cols, available, and labelled with its position's label |
| LayoutViewModels.LayoutLabelsDistinct | frontend/SmartBus_AI_Project/app/src/main/java/com/example/smartbusai/viewmodels/LayoutViewModel.kt:23 | no two seats of the layout share a label |
| LayoutViewModels.SeatTypesMirrored | frontend/SmartBus_AI_Project/app/src/main/java/com/example/smartbusai/viewmodels/LayoutViewModel.kt:26-31 | the seat types of a row read the same from either end; only the middle seat of a five-seat row is regular, and none is accessible |
| LayoutViewModels.FindSeat | frontend/SmartBus_AI_Project/app/src/main/java/com/example/smartbusai/viewmodels/LayoutViewModel.kt:52 | `find`: none exactly when no seat has the label, otherwise the first seat of the list with that label |
| LayoutViewModels.LayoutViewModel.GetSeatByLabel | frontend/SmartBus_AI_Project/app/src/main/java/com/example/smartbusai/viewmodels/LayoutViewModel.kt:51-53 | null without a layout; otherwise the first seat of the layout's list with that label, null only when no seat has it |
| LayoutViewModels.LookupFindsSeat | frontend/SmartBus_AI_Project/app/src/main/java/com/example/smartbusai/viewmodels/LayoutViewModel.kt:51-53 | after `setLayout`, the label of an in-range position finds the seat at that position |
| LayoutViewModels.LookupOnlyGridLabels | frontend/SmartBus_AI_Project/app/src/main/java/com/example/smartbusai/viewmodels/LayoutViewModel.kt:51-53 | after `setLayout`, a label is found exactly when it is the label of an in-range position |
| PassengerViewModels.PassengerViewModel.constructor | frontend/SmartBus_AI_Project/app/src/main/java/com/example/smartbusai/viewmodels/PassengerViewModel.kt:28-45 | no passengers, no mode, not finished, no status, no pending navigation |
| PassengerViewModels.PassengerViewModel.SetInputMode | frontend/SmartBus_AI_Project/app/src/main/java/com/example/smartbusai/viewmodels/PassengerViewModel.kt:49-53 | sets the mode; choosing no mode also clears the finished flag; nothing else changes |
| PassengerViewModels.PassengerViewModel.InitPassengers | frontend/SmartBus_AI_Project/app/src/main/java/com/example/smartbusai/viewmodels/PassengerViewModel.kt:55-60 | a positive count replaces the list by that many default passengers and clears the finished flag; any other count changes nothing |
| PassengerViewModels.PassengerViewModel.UpdatePassenger | frontend/SmartBus_AI_Project/app/src/main/java/com/example/smartbusai/viewmodels/PassengerViewModel.kt:62-68 | an in-range index replaces that passenger, any other index changes nothing |
| PassengerViewModels.PassengerViewModel.SetPassengersFromCsv | frontend/SmartBus_AI_Project/app/src/main/java/com/example/smartbusai/viewmodels/PassengerViewModel.kt:71-74 | the list becomes the parsed list and the summary is shown |
| PassengerViewModels.PassengerViewModel.MarkFinished | frontend/SmartBus_AI_Project/app/src/main/java/com/example/smartbusai/viewmodels/PassengerViewModel.kt:77-79 | sets the finished flag, nothing else |
| PassengerViewModels.PassengerViewModel.Reset | frontend/SmartBus_AI_Project/app/src/main/java/com/example/smartbusai/viewmodels/PassengerViewModel.kt:82-87 | clears list, mode, finished flag and status, and keeps the navigation flag |
| PassengerViewModels.PassengerViewModel.StartAllocation | frontend/SmartBus_AI_Project/app/src/main/java/com/example/smartbusai/viewmodels/PassengerViewModel.kt:93-106 | the status becomes "Allocating..."; the request has trip id "TRIP-" and the clock, the layout's dimensions, and each passenger's API form with PNR "PNR-" and the clock, in order |
| PassengerViewModels.PassengerViewModel.FinishAllocation | frontend/SmartBus_AI_Project/app/src/main/java/com/example/smartbusai/viewmodels/PassengerViewModel.kt:108-124 | a successful response with a body seats the passengers and requests navigation, status "Success"; otherwise the list and navigation are kept and the status is "Error: " and the error body or "Unknown Server Error", or "Network Error: " and the message |
| PassengerViewModels.PassengerViewModel.AllocateSeats | frontend/SmartBus_AI_Project/app/src/main/java/com/example/smartbusai/viewmodels/PassengerViewModel.kt:91-126 | the whole call: a request with the "TRIP-" id, the layout's dimensions and each passenger converted in order under the "PNR-" id; then the status, the seat updates and the navigation flag of `FinishAllocation` |
| PassengerViewModels.FindAssignment | frontend/SmartBus_AI_Project/app/src/main/java/com/example/smartbusai/viewmodels/PassengerViewModel.kt:132-134 | the first assignment whose passenger id is the passenger's id or its first eight characters; none exactly when none matches |
| PassengerViewModels.PassengerViewModel.UpdatePassengerSeats | frontend/SmartBus_AI_Project/app/src/main/java/com/example/smartbusai/viewmodels/PassengerViewModel.kt:128-142 | every passenger takes the seat label of the first matching assignment, and is unchanged without one |
| PassengerViewModels.SeatedProperties | frontend/SmartBus_AI_Project/app/src/main/java/com/example/smartbusai/viewmodels/PassengerViewModel.kt:128-142 | seating keeps the list length and every field but the seat; a passenger with no match keeps its seat, one with a match gets the first match's label |
| PassengerViewModels.ApiIdMatches | frontend/SmartBus_AI_Project/app/src/main/java/com/example/smartbusai/viewmodels/PassengerViewModel.kt:133 | the id sent to the service always matches its passenger |
| PassengerViewModels.AnsweredPassengerSeated | frontend/SmartBus_AI_Project/app/src/main/java/com/example/smartbusai/viewmodels/PassengerViewModel.kt:128-142 | a passenger answered under the id it was sent with gets that assignment's seat |
| PassengerViewModels.PassengerViewModel.OnNavigationHandled | frontend/SmartBus_AI_Project/app/src/main/java/com/example/smartbusai/viewmodels/PassengerViewModel.kt:144-147 | clears the navigation flag and the status, nothing else |
| PassengerViewModels.PassengerViewModel.SubmitFeedback | frontend/SmartBus_AI_Project/app/src/main/java/com/example/smartbusai/viewmodels/PassengerViewModel.kt:149-176 | one feedback request per seated passenger, in order, then the booking is reset |
| PassengerViewModels.FeedbackForSeated | frontend/SmartBus_AI_Project/app/src/main/java/com/example/smartbusai/viewmodels/PassengerViewModel.kt:153-162 | a request is sent for a passenger exactly when it has a seat, with its id, its seat, the rating and the dimensions |
| PassengerViewModels.StatusKinds | frontend/SmartBus_AI_Project/app/src/main/java/com/example/smartbusai/viewmodels/PassengerViewModel.kt:110-122 | the status after a call is exactly one of "Success", an "Error: " status and a "Network Error: " status, as the outcome says, and never "Allocating..." |
| SearchViewModels.PredictionsFor | frontend/SmartBus_AI_Project/app/src/main/java/com/example/smartbusai/viewmodels/SearchViewModel.kt:131-152 | predictions are published only for a query of three or more characters whose answer has status "OK", and then they are the answer's predictions |
| SearchViewModels.ShortQueryNoPredictions | frontend/SmartBus_AI_Project/app/src/main/java/com/example/smartbusai/viewmodels/SearchViewModel.kt:133-136 | a query shorter than three characters yields no predictions, whatever the service would answer |
| SearchViewModels.PredictionsPublished | frontend/SmartBus_AI_Project/app/src/main/java/com/example/smartbusai/viewmodels/SearchViewModel.kt:140-146 | a non-empty answer is published exactly when the query is long enough and the status is "OK" |
| SearchViewModels.Selection | frontend/SmartBus_AI_Project/app/src/main/java/com/example/smartbusai/viewmodels/SearchViewModel.kt:78 | the place picked has the prediction's description and place id |
| SearchViewModels.KeptSelection | frontend/SmartBus_AI_Project/app/src/main/java/com/example/smartbusai/viewmodels/SearchViewModel.kt:70-72 | a selection survives an edit exactly when its description equals the new text |
| SearchViewModels.KeptSelectionDescribes | frontend/SmartBus_AI_Project/app/src/main/java/com/example/smartbusai/viewmodels/SearchViewModel.kt:67-74 | after an edit the selection describes the text, and an edit to the same text keeps it |
| SearchViewModels.RemoveAt | frontend/SmartBus_AI_Project/app/src/main/java/com/example/smartbusai/viewmodels/SearchViewModel.kt:105-106 | `removeAt(i)` drops exactly the element at i, keeping the others in order |
| SearchViewModels.RemoveAtRestores | frontend/SmartBus_AI_Project/app/src/main/java/com/example/smartbusai/viewmodels/SearchViewModel.kt:105-106 | putting the removed element back restores the list |
| SearchViewModels.SearchViewModel.constructor | frontend/SmartBus_AI_Project/app/src/main/java/com/example/smartbusai/viewmodels/SearchViewModel.kt:33-56 | empty texts, no selections, no stops, no predictions; the view model is consistent |
| SearchViewModels.SearchViewModel.FetchPredictions | frontend/SmartBus_AI_Project/app/src/main/java/com/example/smartbusai/viewmodels/SearchViewModel.kt:131-152 | the service is called (with the query) exactly for queries of three or more characters; the predictions become those the answer publishes; nothing else changes |
| SearchViewModels.SearchViewModel.ClearPredictions | frontend/SmartBus_AI_Project/app/src/main/java/com/example/smartbusai/viewmodels/SearchViewModel.kt:154-156 | clears the predictions, nothing else |
| SearchViewModels.SearchViewModel.OnDepartureQueryChange | frontend/SmartBus_AI_Project/app/src/main/java/com/example/smartbusai/viewmodels/SearchViewModel.kt:67-74 | the departure text becomes the new text, the selection is kept only if it describes it, and the predictions are fetched |
| SearchViewModels.SearchViewModel.OnDepartureSelected | frontend/SmartBus_AI_Project/app/src/main/java/com/example/smartbusai/viewmodels/SearchViewModel.kt:76-80 | the departure text and selection become the prediction's, and the predictions are cleared |
| SearchViewModels.SearchViewModel.OnDestinationQueryChange | frontend/SmartBus_AI_Project/app/src/main/java/com/example/smartbusai/viewmodels/SearchViewModel.kt:83-89 | as for the departure, on the destination |
| SearchViewModels.SearchViewModel.OnDestinationSelected | frontend/SmartBus_AI_Project/app/src/main/java/com/example/smartbusai/viewmodels/SearchViewModel.kt:91-95 | as for the departure, on the destination |
| SearchViewModels.SearchViewModel.AddIntermediateStop | frontend/SmartBus_AI_Project/app/src/main/java/com/example/smartbusai/viewmodels/SearchViewModel.kt:98-101 | appends an empty stop with no selection to both lists |
| SearchViewModels.SearchViewModel.RemoveIntermediateStop | frontend/SmartBus_AI_Project/app/src/main/java/com/example/smartbusai/viewmodels/SearchViewModel.kt:103-108 | an in-range index removes that stop from both lists; any other index changes nothing |
| SearchViewModels.SearchViewModel.OnIntermediateQueryChange | frontend/SmartBus_AI_Project/app/src/main/java/com/example/smartbusai/viewmodels/SearchViewModel.kt:110-116 | an in-range stop takes the new text, loses only its selection and fetches predictions; any other index changes nothing |
| SearchViewModels.SearchViewModel.OnIntermediateStopSelected | frontend/SmartBus_AI_Project/app/src/main/java/com/example/smartbusai/viewmodels/SearchViewModel.kt:118-125 | an in-range stop takes the prediction's text and place and the predictions are cleared; any other index changes nothing |
| PassengerSelection.Fields | frontend/SmartBus_AI_Project/app/src/main/java/com/example/smartbusai/ui/passengers/PassengerSelectionScreen.kt:776 | `line.split(",").map { it.trim() }`: one trimmed field per comma-separated piece |
| PassengerSelection.SomesInOrder | frontend/SmartBus_AI_Project/app/src/main/java/com/example/smartbusai/ui/passengers/PassengerSelectionScreen.kt:777-787 | collecting the lines that add a passenger keeps exactly those, each once and in line order |
| PassengerSelection.ParsedLines | frontend/SmartBus_AI_Project/app/src/main/java/com/example/smartbusai/ui/passengers/PassengerSelectionScreen.kt:772-787 | one result per line of the file |
| PassengerSelection.ReadCsv | frontend/SmartBus_AI_Project/app/src/main/java/com/example/smartbusai/ui/passengers/PassengerSelectionScreen.kt:768-792 | the passengers of the lines that are not the header and have at least four fields, in line order, each with a fresh id, the first four fields and age 18 when the age does not parse |
| PassengerSelection.CsvInLineOrder | frontend/SmartBus_AI_Project/app/src/main/java/com/example/smartbusai/ui/passengers/PassengerSelectionScreen.kt:772-788 | every passenger returned comes from its own line, in increasing line order, and every line that yields a passenger is read |
| PassengerSelection.FieldsOfJoin | frontend/SmartBus_AI_Project/app/src/main/java/com/example/smartbusai/ui/passengers/PassengerSelectionScreen.kt:776 | splitting a joined line of comma-free, trimmed fields gives the fields back |
| PassengerSelection.CsvLineRoundTrip | frontend/SmartBus_AI_Project/app/src/main/java/com/example/smartbusai/ui/passengers/PassengerSelectionScreen.kt:776-786 | a line written from four or more such fields is read back as the passenger of those fields |
| PassengerSelection.OnlyFirstLineSkipped | frontend/SmartBus_AI_Project/app/src/main/java/com/example/smartbusai/ui/passengers/PassengerSelectionScreen.kt:774 | a line of four or more fields is skipped exactly when it is line 0 and contains "name" in some case |
| PassengerSelection.FilteredInput | frontend/SmartBus_AI_Project/app/src/main/java/com/example/smartbusai/ui/passengers/PassengerSelectionScreen.kt:437 | the digit filter keeps the field all digits: the typed text replaces the old one or is refused |
| PassengerSelection.DialogCount | frontend/SmartBus_AI_Project/app/src/main/java/com/example/smartbusai/ui/passengers/PassengerSelectionScreen.kt:446-447 | the confirm button is enabled exactly for a non-empty count between 1 and the 32-bit maximum, and then passes that count on |
| PassengerSelection.FormAgeOfDigits | frontend/SmartBus_AI_Project/app/src/main/java/com/example/smartbusai/ui/passengers/PassengerSelectionScreen.kt:487 | the stored age is the number typed, or 18 for an empty or overflowing field |
| PassengerSelection.FormUpdate | frontend/SmartBus_AI_Project/app/src/main/java/com/example/smartbusai/ui/passengers/PassengerSelectionScreen.kt:483-492 | a form edit changes name, age, gender and disability and keeps every other field |
| PassengerSelection.ManualEntry.constructor | frontend/SmartBus_AI_Project/app/src/main/java/com/example/smartbusai/ui/passengers/PassengerSelectionScreen.kt:122 | the form starts at passenger 0 |
| PassengerSelection.ManualEntry.ConfirmCount | frontend/SmartBus_AI_Project/app/src/main/java/com/example/smartbusai/ui/passengers/PassengerSelectionScreen.kt:305-312 | confirming the dialog starts the entry of the confirmed number of default passengers |
| PassengerSelection.ManualEntry.Next | frontend/SmartBus_AI_Project/app/src/main/java/com/example/smartbusai/ui/passengers/PassengerSelectionScreen.kt:327-333 | moves to the next passenger, or shows the summary after the last one; the list is unchanged |
| PassengerSelection.ManualEntry.Back | frontend/SmartBus_AI_Project/app/src/main/java/com/example/smartbusai/ui/passengers/PassengerSelectionScreen.kt:334-336 | moves to the previous passenger, or resets from the first one |
| PassengerSelection.ManualEntry.ResetButton | frontend/SmartBus_AI_Project/app/src/main/java/com/example/smartbusai/ui/passengers/PassengerSelectionScreen.kt:208-212 | resets the passengers and the local index |
| PassengerSelection.IndexNamesPassenger | frontend/SmartBus_AI_Project/app/src/main/java/com/example/smartbusai/ui/passengers/PassengerSelectionScreen.kt:122-126 | while the form is shown the index names a passenger, so `getOrNull(currentIndex)` finds one |
| PassengerSelection.Summary.constructor | frontend/SmartBus_AI_Project/app/src/main/java/com/example/smartbusai/ui/passengers/PassengerSelectionScreen.kt:800 | nothing is selected at first |
| PassengerSelection.Summary.Toggle | frontend/SmartBus_AI_Project/app/src/main/java/com/example/smartbusai/ui/passengers/PassengerSelectionScreen.kt:829-832 | a click deselects a selected passenger and appends an unselected one; no other index changes |
| PassengerSelection.RemoveFirst | frontend/SmartBus_AI_Project/app/src/main/java/com/example/smartbusai/ui/passengers/PassengerSelectionScreen.kt:830 | `remove(index)` on distinct indices drops exactly that index |
| PassengerSelection.Summary.CreateGroup | frontend/SmartBus_AI_Project/app/src/main/java/com/example/smartbusai/ui/passengers/PassengerSelectionScreen.kt:889-897 | with more than one passenger selected, every selected passenger gets the new group id and the selection is cleared |
| PassengerSelection.Grouped | frontend/SmartBus_AI_Project/app/src/main/java/com/example/smartbusai/ui/passengers/PassengerSelectionScreen.kt:893-895 | grouping keeps the number of passengers |
| PassengerSelection.GroupedShareGroup | frontend/SmartBus_AI_Project/app/src/main/java/com/example/smartbusai/ui/passengers/PassengerSelectionScreen.kt:824 | after grouping all selected passengers share the new id, are shown as grouped exactly when that id is non-empty and not "GRP-001", and nothing else changes |
| BookingHistory.LogicalCol | frontend/SmartBus_AI_Project/app/src/main/java/com/example/smartbusai/ui/history/Bookings.kt:438 | a non-aisle visual column shows a seat column inside the row |
| BookingHistory.ColumnsCorrespond | frontend/SmartBus_AI_Project/app/src/main/java/com/example/smartbusai/ui/history/Bookings.kt:435-438 | seat columns and non-aisle visual columns correspond one to one |
| BookingHistory.OneAislePerRow | frontend/SmartBus_AI_Project/app/src/main/java/com/example/smartbusai/ui/history/Bookings.kt:431-436 | in every row exactly one cell, the one at visual column cols / 2, is the aisle gap |
| BookingHistory.LabelDrawnAt | frontend/SmartBus_AI_Project/app/src/main/java/com/example/smartbusai/ui/history/Bookings.kt:431-442 | every seat of the vehicle is drawn, with its label, in the cell of its row and visual column |
| BookingHistory.LabelDrawnOnlyThere | frontend/SmartBus_AI_Project/app/src/main/java/com/example/smartbusai/ui/history/Bookings.kt:431-442 | no other cell draws that label |
| BookingHistory.AssignmentAt | frontend/SmartBus_AI_Project/app/src/main/java/com/example/smartbusai/ui/history/Bookings.kt:424 | `find` by seat label: none exactly when no assignment has the label, otherwise the first assignment that has it |
| BookingHistory.SeatColours | frontend/SmartBus_AI_Project/app/src/main/java/com/example/smartbusai/ui/history/Bookings.kt:440-460 | a seat is coloured exactly when some assignment has its label, golden exactly when the first one is a priority seat; text colour follows the background |
| BookingHistory.PriorityCount | frontend/SmartBus_AI_Project/app/src/main/java/com/example/smartbusai/ui/history/Bookings.kt:240 | the priority count is at most the number of assignments, and equals it exactly when all are priority seats |
| BookingHistory.GroupCount | frontend/SmartBus_AI_Project/app/src/main/java/com/example/smartbusai/ui/history/Bookings.kt:241 | the group count is at most the number of assignments, and 0 exactly when none has a real group id |
| BookingHistory.CountsAppend | frontend/SmartBus_AI_Project/app/src/main/java/com/example/smartbusai/ui/history/Bookings.kt:240-241 | both counts add up over a split of the assignments |
| BookingHistory.OccupancyThresholds | frontend/SmartBus_AI_Project/app/src/main/java/com/example/smartbusai/ui/history/Bookings.kt:132-197 | for a vehicle with seats, "FULL" shows exactly when 10 * occupied > 9 * seats and the bar turns golden exactly when 5 * occupied > 4 * seats; without seats neither; "FULL" implies golden |
| BookingHistory.TripLineShowsSuffix | frontend/SmartBus_AI_Project/app/src/main/java/com/example/smartbusai/ui/history/Bookings.kt:169 | the trip line is "Trip #" and the last six characters of the trip id, upper-cased (all of a shorter id) |
| SeatSelection.DimensionsOfDigits | frontend/SmartBus_AI_Project/app/src/main/java/com/example/smartbusai/ui/passengers/SeatSelectionScreen.kt:172-173 | on the digit-only fields, each dimension is the number typed, or 10 rows / 4 columns for an empty or overflowing field |
| SeatSelection.InitialForm | frontend/SmartBus_AI_Project/app/src/main/java/com/example/smartbusai/ui/passengers/SeatSelectionScreen.kt:78-80 | the initial form describes a 10-by-4 bus |
| SeatSelection.EnabledAroundAllocation | frontend/SmartBus_AI_Project/app/src/main/java/com/example/smartbusai/ui/passengers/SeatSelectionScreen.kt:194 | the allocate button is disabled while "Allocating..." and enabled once the call has finished; no error card shows in flight |
| SeatSelection.NetworkErrorHidden | frontend/SmartBus_AI_Project/app/src/main/java/com/example/smartbusai/ui/passengers/SeatSelectionScreen.kt:153 | as written, a network failure never shows the error card |
| SeatSelection.FailureCardShownIffFailed | frontend/SmartBus_AI_Project/app/src/main/java/com/example/smartbusai/ui/passengers/SeatSelectionScreen.kt:153-167 | with both failure prefixes, the error card shows exactly when the allocation failed |
| SeatSelection.Proceed | frontend/SmartBus_AI_Project/app/src/main/java/com/example/smartbusai/ui/passengers/SeatSelectionScreen.kt:171-188 | the allocate button stores the layout of the parsed dimensions and type and sends the request of `AllocateSeats` (trip id, those dimensions, every passenger converted in order under the PNR); afterwards the status, the passenger seats and the navigation flag are those of the outcome |
| SeatSelection.Occupant | frontend/SmartBus_AI_Project/app/src/main/java/com/example/smartbusai/ui/passengers/SeatSelectionScreen.kt:393 | `find` by seat number: the first passenger seated there, none exactly when nobody is |
| SeatSelection.SeatGridIndexBijection | frontend/SmartBus_AI_Project/app/src/main/java/com/example/smartbusai/ui/passengers/SeatSelectionScreen.kt:385-387 | the items and the seats of a rows-by-cols vehicle correspond one to one, in row-major order |
| SeatSelection.SeatGridLabelsMatchLayout | frontend/SmartBus_AI_Project/app/src/main/java/com/example/smartbusai/ui/passengers/SeatSelectionScreen.kt:385-390 | every item is labelled like the seat `setLayout` puts at the same index |
| SeatSelection.TileFacts | frontend/SmartBus_AI_Project/app/src/main/java/com/example/smartbusai/ui/passengers/SeatSelectionScreen.kt:393-408 | a tile is clickable exactly when someone sits there; it is grey exactly when empty and blue exactly when its occupant's groupId is present and not "GRP-001" (an empty one included) |
| SeatSelection.ClickOpensOccupant | frontend/SmartBus_AI_Project/app/src/main/java/com/example/smartbusai/ui/passengers/SeatSelectionScreen.kt:286-289 | a click on a clickable tile opens a passenger seated there |
| SeatSelection.AllocatedPassengerShown | frontend/SmartBus_AI_Project/app/src/main/java/com/example/smartbusai/ui/passengers/SeatSelectionScreen.kt:393-394 | after an allocation, a passenger who got a seat occupies the tile of that seat |
| SeatSelection.SeatsDriftAcrossRows | frontend/SmartBus_AI_Project/app/src/main/java/com/example/smartbusai/ui/passengers/SeatSelectionScreen.kt:380-387 | as written, on a four-seat bus seat 2A is drawn at the end of the first row |
| SeatSelection.TilesAligned | frontend/SmartBus_AI_Project/app/src/main/java/com/example/smartbusai/ui/passengers/SeatSelectionScreen.kt:380-387 | with a grid `cols` wide, every tile is drawn in the row and column its label names |

## Left out

- **The solver objective.** The MILP objective, its soft preferences and the ML models (seat-type model, penalty model, per-passenger models, disability encoder) are not modelled; that is `integrated_seat_ml_model.py` lines 104-189. The solver is a foreign call.
  - The model takes its status and the set of (passenger, seat) pairs whose variable is 1 as inputs.
  - It relies on the solver's promise that an optimal solution meets the hard constraints: `Allocation.OptimizeSeating` requires `IsFeasible` when the model is built and the status is optimal.
  - When a passenger has no variable whose value is exactly 1 (a floating result such as 0.9999), the source leaves `chosen` without that passenger and raises `KeyError` at line 203 or 214. The model excludes this case by the solver's promise: `IsFeasible` gives every passenger exactly one chosen pair.
- Allocation.OptimizeSeating: raises only on constraint names that are equal as formatted. Any rewriting of names inside PuLP before it compares them is not modelled.
- **Other files.** Training, feedback integration, the web endpoints of `api.py` and the Node `backend/server.js` are not part of this model. Only the layout parameters used at `api.py` line 67 are stated (`SeatTypes.ProductionSeatTypes`).
- **Adjacency as a set.** `adjacent_pairs` is a set of sorted pairs; `list(adj)` at line 71 only fixes an arbitrary order, which the model does not record.
- **Exact arithmetic.** Python's float division in the normalised coordinates and Kotlin's `Float` occupancy rate are exact rationals here. The 0.9f and 0.8f thresholds are read as 9/10 and 4/5, so rounding at the exact threshold of very large vehicles is not modelled.
- **No 32-bit overflow.** Kotlin `Int` overflow of `rows * cols`, `rows * visualCols` and `row * cols + col` is not modelled: integers are unbounded. `toIntOrNull` does keep the 32-bit range (`Text.ParseInt`).
- **Characters.** Case mapping (`lower()`, `lowercase()`, `uppercase()`) covers only the ASCII letters. `isWhitespace` and `isDigit` cover only ASCII; Kotlin also accepts other Unicode whitespace and digits. Lengths such as the `query.length < 3` of `fetchPredictions` count Dafny characters (Unicode scalar values), while Kotlin counts UTF-16 code units, so a query with a character outside the Basic Multilingual Plane is shorter here.
- **Column letters.** A column letter `chr(65 + c)` / `'A' + c` is a Dafny `char`, which excludes the UTF-16 surrogates. Members that build labels therefore require `cols <= MaxColumns` (55 231 columns). Beyond that Kotlin's `Char` arithmetic wraps into surrogates and Python builds astral characters.
- BusModel.GenerateSeats: requires `cols <= MaxColumns`, for the column-letter reason above.
- BusModel.NewBusLayout: requires `cols <= MaxColumns`, for the column-letter reason above.
- LayoutViewModels.LayoutViewModel.SetLayout: requires `cols <= MaxColumns`, for the column-letter reason above.
- SeatSelection.Proceed: requires the parsed column count to be at most `MaxColumns`, for the column-letter reason above.
- **ReadOnlySeatGrid dimensions.** Rows and columns are natural numbers; the stored dimensions are never negative in practice, and the grid of a negative count is not modelled.
- Allocation.CollectChosen: does not say which seat is kept when a passenger has several variables equal to 1 (only that it is one of them). Under the one-seat constraint there is exactly one; see `Allocation.CollectedIsSolverChoice`.
- **Coroutines.** Each launched coroutine runs to completion in one step. Interleavings of overlapping calls are not modelled; `fetchPredictions` answers arriving out of order are one such case.
  - `allocateSeats` is split at the network call into `StartAllocation` (the "Allocating..." status and the request) and `FinishAllocation` (the outcome). `AllocateSeats` runs both.
- **External inputs as parameters.** The network answers become parameters: an `AllocationOutcome` (response or exception) and an optional places answer. So do the two `System.currentTimeMillis()` readings and the UUIDs of new passengers and groups (a `newId` function, a `newGroup` string). Logging is left out.
- PassengerViewModels.PassengerViewModel.SubmitFeedback: returns the requests built for the seated passengers. Whether each send succeeds is not modelled; a failed send is caught and changes nothing.
- **CSV file reading.** Opening the file, a null stream, I/O errors and splitting the content into lines are left out. `PassengerSelection.ReadCsv` takes the lines.
- **Coordinate resolution.** `fetchLatLngFromPlaceId` and the coordinate map of `SearchViewModel.kt` (lines 58-60 and 158 on) make network calls and are not modelled.
- **Client data classes.** The Kotlin declarations of `SeatAssignment`, `FeedbackRequest`, `SeatRequest`, `VehicleConfig` and `VehicleReq` that the core code uses are not part of this model. `ApiRequest.kt` declares an older `SeatAssignment` with other fields. These types are written in `client_data.dfy` from the fields the core code reads.
- **Python's loose types.** Passenger fields have the types the code expects: an integer age, an optional string group id (truthy when non-empty), and string gender and disability. Other Python values are not modelled.
- **Rendering.** Compose layout, colours as pixels, animation, the vehicle-type chips (a plain assignment of "Bus" or "Train"), dialogs and navigation calls are not modelled. The information each cell or chip shows is.

## Findings

| source | as written | input that shows it | evidently intended | confidence | as-written member | corrected member |
|---|---|---|---|---|---|---|
| frontend/SmartBus_AI_Project/app/src/main/java/com/example/smartbusai/ui/passengers/SeatSelectionScreen.kt:380-387 | `SeatGrid` lays its `rows * cols` items in a grid `cols + 1` wide, while each item's label uses `index / cols` and `index % cols` | a bus 4 seats wide: item 4, labelled 2A, is drawn as the fifth cell of the first row, and every later row drifts further | items laid out `cols` wide (or with a spacer per row, as `ReadOnlySeatGrid` does), so each seat is drawn in the row and column its label names | not executed | SeatSelection.SeatsDriftAcrossRows | SeatSelection.TilesAligned |
| frontend/SmartBus_AI_Project/app/src/main/java/com/example/smartbusai/ui/passengers/SeatSelectionScreen.kt:153-167 | the error card shows only for a status starting with "Error", but a network exception sets "Network Error: ..." (`PassengerViewModel.kt` line 122) | the allocation call throws with message "timeout": the status is "Network Error: timeout" and no error card is shown | the card shows for every failed allocation | not executed | SeatSelection.NetworkErrorHidden | SeatSelection.FailureCardShownIffFailed |
