/**
 * The human-readable explanation of a seat assignment (explain_utils.py): a header line naming the
 * passenger and the seat, followed by one bullet line per reason that applies, or a single
 * "standard assignment" line when none does.
 */
module Explain {
  import opened Wrappers
  import opened Text
  import opened BusModel
  import opened SeatTypes
  import opened Allocation
  import opened ExplainLines

  /** `f"Passenger {passenger.id} (Age: {passenger.age}) -> Seat {seat.id}"`. */
  function Header(p: Passenger, seat: Seat): string {
    "Passenger " + p.id + " (Age: " + IntToString(p.age) + ") -> Seat " + seat.id
  }

  /** `str(passenger.gender).lower() == 'female'`. */
  predicate IsFemale(p: Passenger) {
    AsciiLower(p.gender) == "female"
  }

  /** `predicted_type and predicted_type == actual_type`. */
  predicate ModelMatches(predictedType: Option<string>, seat: Seat, bus: BusLayout) {
    Truthy(predictedType) && predictedType.value == GetSeatType(seat, bus)
  }

  /** The reason given for a seat of the disability zone, if any. */
  function DisabilityReason(p: Passenger, seat: Seat): seq<Reason> {
    ZoneReason(seat.zone == Disability, p.RequiresDisabilityZone(), p.IsDisabled(), p.age >= 60, p.disability)
  }

  /** The disability-zone reason, from the conditions the source tests in turn. */
  function ZoneReason(inZone: bool, wheelchair: bool, disabled: bool, senior: bool, disability: string): seq<Reason> {
    if !inZone then []
    else if wheelchair then [WheelchairAccess]
    else if disabled then [AccessibleFor(disability)]
    else if senior then [SeniorPriority]
    else []
  }

  /** The reasons found for an assignment, in the order they are tested. */
  function FoundReasons(p: Passenger, seat: Seat, bus: BusLayout, predictedType: Option<string>, isPersonalized: bool)
    : seq<Reason>
  {
    Found(isPersonalized, Truthy(p.groupId), ModelMatches(predictedType, seat, bus), predictedType.GetOr(""),
          seat.zone == FemaleOnly && IsFemale(p), DisabilityReason(p, seat))
  }

  /** The reasons found, from the conditions the source tests in turn. */
  function Found(personalized: bool, grouped: bool, matched: bool, seatType: string, femaleZone: bool,
                 zoneReason: seq<Reason>): seq<Reason>
  {
    Chunk(personalized, Personalized) + Chunk(grouped, GroupCohesion) + Chunk(matched, ModelMatched(seatType))
    + Chunk(femaleZone, FemaleZoneRespected) + zoneReason
  }

  /** `[r]` when `c` holds, and nothing otherwise. */
  function Chunk(c: bool, r: Reason): seq<Reason> {
    if c then [r] else []
  }

  /** The reasons the explanation lists: the ones found, or the standard assignment when none is. */
  function Reasons(p: Passenger, seat: Seat, bus: BusLayout, predictedType: Option<string>, isPersonalized: bool)
    : seq<Reason>
  {
    var found := FoundReasons(p, seat, bus, predictedType, isPersonalized);
    if found == [] then [StandardAssignment] else found
  }

  /** `explain_assignment`: the explanation lines built one append at a time, joined with newlines. */
  method ExplainAssignment(p: Passenger, seat: Seat, bus: BusLayout, predictedType: Option<string>, isPersonalized: bool)
    returns (text: string)
    ensures text == Join([Header(p, seat)] + ReasonLines(Reasons(p, seat, bus, predictedType, isPersonalized)), '\n')
  {
    var header := Header(p, seat);
    var explanation := [header];
    LinesStart(header);
    ghost var found: seq<Reason> := [];
    LinesStep(explanation, header, found, isPersonalized, Personalized);
    if isPersonalized {
      explanation := explanation + [ReasonLine(Personalized)];
    }
    found := found + Chunk(isPersonalized, Personalized);
    LinesStep(explanation, header, found, Truthy(p.groupId), GroupCohesion);
    if Truthy(p.groupId) {
      explanation := explanation + [ReasonLine(GroupCohesion)];
    }
    found := found + Chunk(Truthy(p.groupId), GroupCohesion);
    var actualType := GetSeatType(seat, bus);
    var matched := Truthy(predictedType) && predictedType.value == actualType;
    LinesStep(explanation, header, found, matched, ModelMatched(predictedType.GetOr("")));
    if matched {
      explanation := explanation + [ReasonLine(ModelMatched(predictedType.value))];
    }
    found := found + Chunk(matched, ModelMatched(predictedType.GetOr("")));
    var femaleZone := seat.zone == FemaleOnly && IsFemale(p);
    LinesStep(explanation, header, found, femaleZone, FemaleZoneRespected);
    if femaleZone {
      explanation := explanation + [ReasonLine(FemaleZoneRespected)];
    }
    found := found + Chunk(femaleZone, FemaleZoneRespected);
    ZoneStep(explanation, header, found, p, seat);
    if seat.zone == Disability {
      if p.RequiresDisabilityZone() {
        explanation := explanation + [ReasonLine(WheelchairAccess)];
      } else if p.IsDisabled() {
        explanation := explanation + [ReasonLine(AccessibleFor(p.disability))];
      } else if p.age >= 60 {
        explanation := explanation + [ReasonLine(SeniorPriority)];
      }
    }
    found := found + DisabilityReason(p, seat);
    FoundIsFoundReasons(p, seat, bus, predictedType, isPersonalized, found);
    StandardStep(explanation, header, found);
    if |explanation| == 1 {
      explanation := explanation + [ReasonLine(StandardAssignment)];
    }
    text := Join(explanation, '\n');
  }

  /** The header alone is the header followed by the lines of no reason. */
  lemma {:induction false} LinesStart(header: string)
    ensures [header] == [header] + ReasonLines([])
  {
  }

  /** Appending the line of a reason when its condition holds keeps the lines those of the header and the reasons. */
  lemma {:induction false} LinesStep(lines: seq<string>, header: string, found: seq<Reason>, c: bool, r: Reason)
    requires lines == [header] + ReasonLines(found)
    ensures (if c then lines + [ReasonLine(r)] else lines) == [header] + ReasonLines(found + Chunk(c, r))
  {
    ReasonLinesAppend(found, Chunk(c, r));
  }

  /** The same for the disability-zone reason, appended after the source's chain of tests. */
  lemma {:induction false} ZoneStep(lines: seq<string>, header: string, found: seq<Reason>, p: Passenger, seat: Seat)
    requires lines == [header] + ReasonLines(found)
    ensures
      (if seat.zone != Disability then lines
       else if p.RequiresDisabilityZone() then lines + [ReasonLine(WheelchairAccess)]
       else if p.IsDisabled() then lines + [ReasonLine(AccessibleFor(p.disability))]
       else if p.age >= 60 then lines + [ReasonLine(SeniorPriority)]
       else lines)
      == [header] + ReasonLines(found + DisabilityReason(p, seat))
  {
    ReasonLinesAppend(found, DisabilityReason(p, seat));
  }

  /** The reasons collected step by step are the reasons found. */
  lemma {:induction false} FoundIsFoundReasons(p: Passenger, seat: Seat, bus: BusLayout, predictedType: Option<string>,
                                               isPersonalized: bool, found: seq<Reason>)
    requires found == [] + Chunk(isPersonalized, Personalized) + Chunk(Truthy(p.groupId), GroupCohesion)
      + Chunk(Truthy(predictedType) && predictedType.value == GetSeatType(seat, bus), ModelMatched(predictedType.GetOr("")))
      + Chunk(seat.zone == FemaleOnly && IsFemale(p), FemaleZoneRespected) + DisabilityReason(p, seat)
    ensures found == FoundReasons(p, seat, bus, predictedType, isPersonalized)
  {
    assert [] + Chunk(isPersonalized, Personalized) == Chunk(isPersonalized, Personalized);
  }

  /** The standard line, appended when nothing else was, completes the lines of the reasons listed. */
  lemma {:induction false} StandardStep(lines: seq<string>, header: string, found: seq<Reason>)
    requires lines == [header] + ReasonLines(found)
    ensures (if |lines| == 1 then lines + [ReasonLine(StandardAssignment)] else lines)
      == [header] + ReasonLines(if found == [] then [StandardAssignment] else found)
  {
    if found == [] {
      ReasonLinesAppend([], [StandardAssignment]);
      assert [] + [StandardAssignment] == [StandardAssignment];
    }
  }

  // ---- properties of the explanation ----

  /** Which reasons the zone check gives. */
  lemma {:induction false} ZoneMembers(inZone: bool, wheelchair: bool, disabled: bool, senior: bool, disability: string)
    ensures var z := ZoneReason(inZone, wheelchair, disabled, senior, disability);
      && (WheelchairAccess in z <==> inZone && wheelchair)
      && ((exists d :: AccessibleFor(d) in z) <==> inZone && !wheelchair && disabled)
      && (SeniorPriority in z <==> inZone && !wheelchair && !disabled && senior)
      && (forall r :: r in z ==> r.WheelchairAccess? || r.AccessibleFor? || r.SeniorPriority?)
  {
    var z := ZoneReason(inZone, wheelchair, disabled, senior, disability);
    if inZone && !wheelchair && disabled {
      assert AccessibleFor(disability) in z;
    }
  }

  /** Which reasons `Found` takes from its conditions. */
  lemma {:induction false} FoundFlags(personalized: bool, grouped: bool, matched: bool, seatType: string,
                                      femaleZone: bool, zoneReason: seq<Reason>)
    requires forall r :: r in zoneReason ==> r.WheelchairAccess? || r.AccessibleFor? || r.SeniorPriority?
    ensures var f := Found(personalized, grouped, matched, seatType, femaleZone, zoneReason);
      && (Personalized in f <==> personalized)
      && (GroupCohesion in f <==> grouped)
      && ((exists t :: ModelMatched(t) in f) <==> matched)
      && (FemaleZoneRespected in f <==> femaleZone)
      && StandardAssignment !in f
  {
    var head := Chunk(personalized, Personalized) + Chunk(grouped, GroupCohesion) + Chunk(matched, ModelMatched(seatType))
      + Chunk(femaleZone, FemaleZoneRespected);
    var f := Found(personalized, grouped, matched, seatType, femaleZone, zoneReason);
    assert f == head + zoneReason;
    if matched {
      assert ModelMatched(seatType) in f;
    }
  }

  /** `Found` keeps the zone reasons and adds none of their kinds. */
  lemma {:induction false} FoundZone(personalized: bool, grouped: bool, matched: bool, seatType: string,
                                     femaleZone: bool, zoneReason: seq<Reason>)
    ensures var f := Found(personalized, grouped, matched, seatType, femaleZone, zoneReason);
      && (WheelchairAccess in f <==> WheelchairAccess in zoneReason)
      && ((exists d :: AccessibleFor(d) in f) <==> exists d :: AccessibleFor(d) in zoneReason)
      && (SeniorPriority in f <==> SeniorPriority in zoneReason)
  {
    var head := Chunk(personalized, Personalized) + Chunk(grouped, GroupCohesion) + Chunk(matched, ModelMatched(seatType))
      + Chunk(femaleZone, FemaleZoneRespected);
    var f := Found(personalized, grouped, matched, seatType, femaleZone, zoneReason);
    assert f == head + zoneReason;
    assert forall r :: r in head ==> r.Personalized? || r.GroupCohesion? || r.ModelMatched? || r.FemaleZoneRespected?;
  }

  /** Which reasons appear, each stated as the condition of the source. */
  lemma {:induction false} ReasonsPresent(p: Passenger, seat: Seat, bus: BusLayout, predictedType: Option<string>, isPersonalized: bool)
    ensures var rs := Reasons(p, seat, bus, predictedType, isPersonalized);
      && (Personalized in rs <==> isPersonalized)
      && (GroupCohesion in rs <==> Truthy(p.groupId))
      && ((exists t :: ModelMatched(t) in rs) <==> ModelMatches(predictedType, seat, bus))
      && (FemaleZoneRespected in rs <==> seat.zone == FemaleOnly && IsFemale(p))
      && (WheelchairAccess in rs <==> seat.zone == Disability && p.RequiresDisabilityZone())
      && ((exists d :: AccessibleFor(d) in rs) <==>
            seat.zone == Disability && !p.RequiresDisabilityZone() && p.IsDisabled())
      && (SeniorPriority in rs <==> seat.zone == Disability && !p.IsDisabled() && p.age >= 60)
  {
    var zone := DisabilityReason(p, seat);
    ZoneMembers(seat.zone == Disability, p.RequiresDisabilityZone(), p.IsDisabled(), p.age >= 60, p.disability);
    FoundFlags(isPersonalized, Truthy(p.groupId), ModelMatches(predictedType, seat, bus), predictedType.GetOr(""),
               seat.zone == FemaleOnly && IsFemale(p), zone);
    FoundZone(isPersonalized, Truthy(p.groupId), ModelMatches(predictedType, seat, bus), predictedType.GetOr(""),
              seat.zone == FemaleOnly && IsFemale(p), zone);
    var found := FoundReasons(p, seat, bus, predictedType, isPersonalized);
    var rs := Reasons(p, seat, bus, predictedType, isPersonalized);
    assert rs == if found == [] then [StandardAssignment] else found;
    if p.RequiresDisabilityZone() {
      WheelchairIsDisabled(p);
    }
  }

  /** The standard line is given exactly when no other reason applies, and then alone. */
  lemma {:induction false} StandardOnlyAlone(p: Passenger, seat: Seat, bus: BusLayout, predictedType: Option<string>, isPersonalized: bool)
    ensures var rs := Reasons(p, seat, bus, predictedType, isPersonalized);
      && |rs| >= 1
      && (StandardAssignment in rs <==> rs == [StandardAssignment])
      && (rs == [StandardAssignment] <==>
            && !isPersonalized && !Truthy(p.groupId) && !ModelMatches(predictedType, seat, bus)
            && !(seat.zone == FemaleOnly && IsFemale(p)) && DisabilityReason(p, seat) == [])
  {
    var found := FoundReasons(p, seat, bus, predictedType, isPersonalized);
    assert StandardAssignment !in found;
    assert StandardAssignment !in DisabilityReason(p, seat);
  }

  /** At most one reason concerns the disability zone, and only a seat of that zone gets one. */
  lemma {:induction false} OneZoneReason(p: Passenger, seat: Seat, bus: BusLayout, predictedType: Option<string>, isPersonalized: bool)
    ensures |DisabilityReason(p, seat)| <= 1
    ensures DisabilityReason(p, seat) != [] ==> seat.zone == Disability
    ensures var rs := Reasons(p, seat, bus, predictedType, isPersonalized);
      |rs| <= 5
  {
  }

  /** When the ids, the disability and the predicted type contain no newline, splitting the explanation at
      newlines gives back the header and the line of each reason, in order. */
  lemma {:induction false} ExplanationLines(p: Passenger, seat: Seat, bus: BusLayout, predictedType: Option<string>,
                                            isPersonalized: bool, text: string)
    requires text == Join([Header(p, seat)] + ReasonLines(Reasons(p, seat, bus, predictedType, isPersonalized)), '\n')
    requires '\n' !in p.id && '\n' !in seat.id && '\n' !in p.disability
    requires predictedType.Some? ==> '\n' !in predictedType.value
    ensures var rs := Reasons(p, seat, bus, predictedType, isPersonalized);
      && Split(text, '\n') == [Header(p, seat)] + ReasonLines(rs)
      && |Split(text, '\n')| == 1 + |rs|
  {
    var rs := Reasons(p, seat, bus, predictedType, isPersonalized);
    QuotedTexts(p, seat, bus, predictedType, isPersonalized);
    ReasonLinesSingle(rs);
    HeaderSingle(p, seat);
    var lines := [Header(p, seat)] + ReasonLines(rs);
    forall k | 0 <= k < |lines| ensures '\n' !in lines[k] {
      if k > 0 {
        assert lines[k] == ReasonLines(rs)[k - 1];
      }
    }
    SplitJoin(lines, '\n');
  }

  /** The only texts a reason quotes are the predicted seat type and the disability. */
  lemma {:induction false} QuotedTexts(p: Passenger, seat: Seat, bus: BusLayout, predictedType: Option<string>,
                                       isPersonalized: bool)
    ensures forall r :: r in Reasons(p, seat, bus, predictedType, isPersonalized) ==>
      && (r.ModelMatched? ==> r.seatType == predictedType.GetOr(""))
      && (r.AccessibleFor? ==> r.disability == p.disability)
  {
  }

  /** The header is a single line when the ids are. */
  lemma {:induction false} HeaderSingle(p: Passenger, seat: Seat)
    requires '\n' !in p.id && '\n' !in seat.id
    ensures '\n' !in Header(p, seat)
  {
    IntToStringDigits(p.age);
  }

  /** The decimal form of an integer holds no newline. */
  lemma {:induction false} IntToStringDigits(i: int)
    ensures '\n' !in IntToString(i)
  {
    var s := IntToString(i);
    if i < 0 {
      assert s == "-" + NatToString(-i);
      assert AllDigits(NatToString(-i));
    } else {
      assert AllDigits(NatToString(i));
    }
  }

  // ---- explanations of assignments that meet the hard constraints ----

  /** A wheelchair user is always told that the accessible seat was mandatory. */
  lemma {:induction false} WheelchairExplained(ps: seq<Passenger>, bus: BusLayout, chosen: map<string, string>, i: nat,
                                               predictedType: Option<string>, isPersonalized: bool)
    requires WellFormed(bus) && SatisfiesHardConstraints(ps, bus, chosen)
    requires i < |ps| && ps[i].RequiresDisabilityZone()
    ensures WheelchairAccess in Reasons(ps[i], bus.seatMap[chosen[ps[i].id]], bus, predictedType, isPersonalized)
    ensures StandardAssignment !in Reasons(ps[i], bus.seatMap[chosen[ps[i].id]], bus, predictedType, isPersonalized)
  {
    var seat := bus.seatMap[chosen[ps[i].id]];
    WheelchairSeated(ps, bus, chosen, i);
    ReasonsPresent(ps[i], seat, bus, predictedType, isPersonalized);
    StandardOnlyAlone(ps[i], seat, bus, predictedType, isPersonalized);
  }

  /** A passenger neither disabled nor a senior is never given a reason about the disability zone. */
  lemma {:induction false} AbleBodiedNoZoneReason(ps: seq<Passenger>, bus: BusLayout, chosen: map<string, string>, i: nat)
    requires WellFormed(bus) && SatisfiesHardConstraints(ps, bus, chosen)
    requires i < |ps| && !ps[i].IsDisabled() && ps[i].age < 60
    ensures DisabilityReason(ps[i], bus.seatMap[chosen[ps[i].id]]) == []
  {
    AbleBodiedNotInDisabilityZone(ps, bus, chosen, i);
  }
}
