/**
 * The passenger entry screen of the Android client (ui/passengers/PassengerSelectionScreen.kt): the CSV
 * import, the passenger-count dialog, the step-by-step manual form and the summary where passengers are
 * grouped.
 */
module PassengerSelection {
  import opened Wrappers
  import opened Text
  import opened ClientData
  import opened PassengerViewModels

  // ---- CSV import ----

  /** The age a passenger gets when its age field does not parse. */
  const DefaultAge: int := 18

  /** Line 0 is a header, and skipped, when its lower-case form contains "name". */
  predicate IsHeader(index: nat, line: string) {
    index == 0 && Contains(AsciiLower(line), "name")
  }

  /** `line.split(",").map { it.trim() }`. */
  function Fields(line: string): (parts: seq<string>)
    ensures |parts| == |Split(line, ',')|
    ensures forall k :: 0 <= k < |parts| ==> parts[k] == Trim(Split(line, ',')[k])
  {
    var raw := Split(line, ',');
    seq(|raw|, k requires 0 <= k < |raw| => Trim(raw[k]))
  }

  /** The passenger a line at `index` adds, if any; the id is the fresh UUID `newId(index)`. */
  function ParsedLine(index: nat, line: string, newId: nat -> string): Option<Passenger> {
    if IsHeader(index, line) then None
    else
      var parts := Fields(line);
      if |parts| >= 4 then
        Some(Passenger(newId(index), name := parts[0], age := ParseInt(parts[1]).GetOr(DefaultAge),
                       gender := parts[2], disability := parts[3]))
      else None
  }

  /** The values of the present entries, in order. */
  function Somes<T>(os: seq<Option<T>>): seq<T>
    decreases |os|
  {
    if os == [] then []
    else
      var init := Somes(os[..|os| - 1]);
      if os[|os| - 1].Some? then init + [os[|os| - 1].value] else init
  }

  /** The indices of the present entries, in order. */
  ghost function SomeIndices<T>(os: seq<Option<T>>): seq<nat>
    decreases |os|
  {
    if os == [] then []
    else
      var init := SomeIndices(os[..|os| - 1]);
      if os[|os| - 1].Some? then init + [|os| - 1] else init
  }

  /** `Somes` keeps exactly the present entries, each once and in their order. */
  lemma {:induction false} SomesInOrder<T>(os: seq<Option<T>>)
    ensures |SomeIndices(os)| == |Somes(os)| <= |os|
    ensures forall j :: 0 <= j < |SomeIndices(os)| ==>
      SomeIndices(os)[j] < |os| && os[SomeIndices(os)[j]] == Some(Somes(os)[j])
    ensures forall i, j :: 0 <= i < j < |SomeIndices(os)| ==> SomeIndices(os)[i] < SomeIndices(os)[j]
    ensures forall k :: 0 <= k < |os| && os[k].Some? ==> k in SomeIndices(os)
    decreases |os|
  {
    if os != [] {
      var last := |os| - 1;
      var init := os[..last];
      SomesInOrder(init);
      var src := SomeIndices(init);
      forall j | 0 <= j < |src|
        ensures src[j] < last && os[src[j]] == init[src[j]]
      {
      }
      forall k | 0 <= k < |os| && os[k].Some?
        ensures k in SomeIndices(os)
      {
        if k < last {
          assert init[k] == os[k];
          assert k in src;
        } else {
          assert SomeIndices(os) == src + [last];
        }
      }
    }
  }

  /** What each line of a file contributes. */
  function ParsedLines(lines: seq<string>, newId: nat -> string): (parsed: seq<Option<Passenger>>)
    ensures |parsed| == |lines|
  {
    seq(|lines|, k requires 0 <= k < |lines| => ParsedLine(k, lines[k], newId))
  }

  /** The passengers `readCsvFromUri` returns for the lines of a file. */
  function CsvPassengers(lines: seq<string>, newId: nat -> string): seq<Passenger> {
    Somes(ParsedLines(lines, newId))
  }

  /** `readCsvFromUri`, over the lines of the file. */
  method ReadCsv(lines: seq<string>, newId: nat -> string) returns (passengers: seq<Passenger>)
    ensures passengers == CsvPassengers(lines, newId)
  {
    ghost var parsed := ParsedLines(lines, newId);
    passengers := [];
    var index := 0;
    while index < |lines|
      invariant 0 <= index <= |lines|
      invariant passengers == Somes(parsed[..index])
    {
      var line := lines[index];
      ReadCsvStep(lines, newId, parsed, index, passengers);
      if !(index == 0 && Contains(AsciiLower(line), "name")) {
        var parts := Fields(line);
        if |parts| >= 4 {
          passengers := passengers + [Passenger(newId(index), name := parts[0],
                                                age := ParseInt(parts[1]).GetOr(DefaultAge),
                                                gender := parts[2], disability := parts[3])];
        }
      }
      index := index + 1;
    }
    assert parsed[..index] == parsed;
  }

  /** One more line of `readCsvFromUri`: the passenger of the line, if any, is appended. */
  lemma {:induction false} ReadCsvStep(lines: seq<string>, newId: nat -> string, parsed: seq<Option<Passenger>>,
                                       index: nat, passengers: seq<Passenger>)
    requires parsed == ParsedLines(lines, newId) && index < |lines| && passengers == Somes(parsed[..index])
    ensures Somes(parsed[..index + 1]) ==
      if !(index == 0 && Contains(AsciiLower(lines[index]), "name")) && |Fields(lines[index])| >= 4 then
        passengers + [Passenger(newId(index), name := Fields(lines[index])[0],
                                age := ParseInt(Fields(lines[index])[1]).GetOr(DefaultAge),
                                gender := Fields(lines[index])[2], disability := Fields(lines[index])[3])]
      else passengers
  {
    assert parsed[..index + 1][..index] == parsed[..index];
    assert parsed[index] == ParsedLine(index, lines[index], newId);
  }

  /**
   * The passengers come from distinct lines, in line order, each the passenger of its line; and every
   * line that makes a passenger is among them. Hence at most one passenger per line.
   */
  lemma {:induction false} CsvInLineOrder(lines: seq<string>, newId: nat -> string)
    ensures var ps, src := CsvPassengers(lines, newId), SomeIndices(ParsedLines(lines, newId));
      && |src| == |ps| <= |lines|
      && (forall j :: 0 <= j < |src| ==> src[j] < |lines| && ParsedLine(src[j], lines[src[j]], newId) == Some(ps[j]))
      && (forall i, j :: 0 <= i < j < |src| ==> src[i] < src[j])
      && (forall k :: 0 <= k < |lines| && ParsedLine(k, lines[k], newId).Some? ==> k in src)
  {
    var parsed := ParsedLines(lines, newId);
    SomesInOrder(parsed);
    assert forall k :: 0 <= k < |lines| ==> parsed[k] == ParsedLine(k, lines[k], newId);
  }

  /** Splitting a joined line of comma-free, trimmed fields and trimming the pieces gives the fields back. */
  lemma {:induction false} FieldsOfJoin(fields: seq<string>)
    requires |fields| >= 1
    requires forall k :: 0 <= k < |fields| ==> ',' !in fields[k] && Trim(fields[k]) == fields[k]
    ensures Fields(Join(fields, ',')) == fields
  {
    SplitJoin(fields, ',');
  }

  /**
   * A line of at least four comma-free, trimmed fields that is not the header gives the passenger its
   * first four fields describe; later fields are ignored.
   */
  lemma {:induction false} CsvLineRoundTrip(index: nat, fields: seq<string>, newId: nat -> string)
    requires |fields| >= 4
    requires forall k :: 0 <= k < |fields| ==> ',' !in fields[k] && Trim(fields[k]) == fields[k]
    requires !IsHeader(index, Join(fields, ','))
    ensures ParsedLine(index, Join(fields, ','), newId) ==
      Some(Passenger(newId(index), name := fields[0], age := ParseInt(fields[1]).GetOr(DefaultAge),
                     gender := fields[2], disability := fields[3]))
  {
    FieldsOfJoin(fields);
  }

  /** A line at index 0 is skipped as a header or read like any other line. */
  lemma {:induction false} OnlyFirstLineSkipped(index: nat, line: string, newId: nat -> string)
    requires |Fields(line)| >= 4
    ensures ParsedLine(index, line, newId).None? <==> index == 0 && Contains(AsciiLower(line), "name")
    ensures ParsedLine(index, line, newId).Some? ==> ParsedLine(index, line, newId).value.name == Fields(line)[0]
  {
  }

  // ---- the passenger-count dialog and the age field ----

  /** The text field's filter: a typed text replaces the old one only when it is all digits. */
  function FilteredInput(current: string, typed: string): (text: string)
    ensures AllDigits(current) ==> AllDigits(text)
    ensures text == typed || text == current
  {
    if AllDigits(typed) then typed else current
  }

  /** `enabled = text.isNotEmpty() && (text.toIntOrNull() ?: 0) > 0`. */
  predicate ConfirmEnabled(text: string) {
    |text| > 0 && ParseInt(text).GetOr(0) > 0
  }

  /** The count `onConfirm(text.toIntOrNull() ?: 1)` passes on. */
  function ConfirmedCount(text: string): int {
    ParseInt(text).GetOr(1)
  }

  /**
   * On the digit strings the dialog admits, confirming is enabled exactly for a nonzero count that fits an
   * Int, and the count passed on is then that number, so it starts a non-empty manual entry.
   */
  lemma {:induction false} DialogCount(text: string)
    requires AllDigits(text)
    ensures ConfirmEnabled(text) <==> |text| > 0 && 1 <= ParseDigits(text) <= IntMax
    ensures ConfirmEnabled(text) ==> ConfirmedCount(text) == ParseDigits(text) > 0
  {
    ParseIntOfDigits(text);
  }

  /** The age the form stores for the age field's text: its value, or 18 when it does not parse. */
  function FormAge(text: string): int {
    ParseInt(text).GetOr(DefaultAge)
  }

  /** On the digit strings the age field admits, the stored age is the number typed, or 18 for an empty or overlong one. */
  lemma {:induction false} FormAgeOfDigits(text: string)
    requires AllDigits(text)
    ensures FormAge(text) >= 0
    ensures text == [] || ParseDigits(text) > IntMax ==> FormAge(text) == DefaultAge
    ensures text != [] && ParseDigits(text) <= IntMax ==> FormAge(text) == ParseDigits(text)
  {
    ParseIntOfDigits(text);
  }

  /** The passenger after a form edit. */
  function FormUpdate(p: Passenger, name: string, ageText: string, gender: string, disability: string): (q: Passenger)
    ensures q.id == p.id && q.groupId == p.groupId && q.seatNumber == p.seatNumber
    ensures q.pickupStopId == p.pickupStopId && q.dropStopId == p.dropStopId
    ensures q.pickupLocation == p.pickupLocation && q.dropLocation == p.dropLocation
    ensures q.name == name && q.age == FormAge(ageText) && q.gender == gender && q.disability == disability
  {
    p.(name := name, age := FormAge(ageText), gender := gender, disability := disability)
  }

  // ---- manual entry ----

  /** The manual form: the index of the passenger being edited, over the shared passenger list. */
  class ManualEntry {
    var currentIndex: int
    const vm: PassengerViewModel

    /** The index is never negative, and it is 0 or the index of a passenger. */
    predicate Valid()
      reads this, vm
    {
      0 <= currentIndex && (currentIndex == 0 || currentIndex < |vm.passengers|)
    }

    constructor(model: PassengerViewModel)
      requires model.passengers == []
      ensures vm == model && currentIndex == 0 && Valid()
    {
      vm := model;
      currentIndex := 0;
    }

    /** The dialog's confirm: starts the entry of the confirmed number of passengers. */
    method ConfirmCount(text: string, newId: nat -> string)
      requires Valid() && vm.passengers == [] && ConfirmEnabled(text)
      modifies vm
      ensures Valid()
      ensures vm.passengers == DefaultPassengers(ConfirmedCount(text), newId) && !vm.isFinished
      ensures |vm.passengers| == ConfirmedCount(text) > 0
    {
      vm.InitPassengers(ConfirmedCount(text), newId);
    }

    /** `onNext` and the Next button: the next passenger, or the summary after the last one. */
    method Next()
      requires Valid() && vm.inputMode == Manual && !vm.isFinished && |vm.passengers| > 0
      modifies this, vm
      ensures Valid()
      ensures old(currentIndex) < |vm.passengers| - 1 ==> currentIndex == old(currentIndex) + 1 && !vm.isFinished
      ensures old(currentIndex) >= |vm.passengers| - 1 ==> currentIndex == old(currentIndex) && vm.isFinished
      ensures vm.passengers == old(vm.passengers) && vm.inputMode == old(vm.inputMode)
    {
      if currentIndex < |vm.passengers| - 1 {
        currentIndex := currentIndex + 1;
      } else {
        vm.MarkFinished();
      }
    }

    /** `onBack`: the previous passenger, or a reset from the first one. */
    method Back()
      requires Valid()
      modifies this, vm
      ensures Valid()
      ensures old(currentIndex) > 0 ==> currentIndex == old(currentIndex) - 1 && vm.passengers == old(vm.passengers)
      ensures old(currentIndex) <= 0 ==> currentIndex == old(currentIndex) && vm.passengers == [] && vm.inputMode == Unselected
    {
      if currentIndex > 0 {
        currentIndex := currentIndex - 1;
      } else {
        vm.Reset();
      }
    }

    /** The "Reset / Cancel" button: resets the passengers and the local index. */
    method ResetButton()
      modifies this, vm
      ensures Valid() && currentIndex == 0
      ensures vm.passengers == [] && vm.inputMode == Unselected && !vm.isFinished
    {
      vm.Reset();
      currentIndex := 0;
    }
  }

  /** While the form is shown the index names a passenger, so `getOrNull(currentIndex)` finds one. */
  lemma {:induction false} IndexNamesPassenger(currentIndex: int, total: nat)
    requires 0 <= currentIndex && (currentIndex == 0 || currentIndex < total)
    requires total > 0
    ensures 0 <= currentIndex < total
  {
  }

  // ---- summary and grouping ----

  /** `isGrouped`: the passenger's group id names a real group. */
  predicate IsGrouped(p: Passenger) {
    IsRealGroup(p.groupId)
  }

  /** The passengers after "Create group": every selected index takes the group id `newGroup`. */
  function Grouped(ps: seq<Passenger>, selected: seq<int>, newGroup: string): (qs: seq<Passenger>)
    ensures |qs| == |ps|
  {
    seq(|ps|, k requires 0 <= k < |ps| => if k in selected then ps[k].(groupId := Some(newGroup)) else ps[k])
  }

  /** "Create group" is offered when more than one passenger is selected. */
  predicate GroupButtonShown(selected: seq<int>) {
    |selected| > 1
  }

  /** The summary's selection: the selected indices of the shared passenger list, in the order picked. */
  class Summary {
    var selectedIndices: seq<int>
    const vm: PassengerViewModel

    /** The selection holds distinct indices of passengers. */
    predicate Valid()
      reads this, vm
    {
      && (forall k :: 0 <= k < |selectedIndices| ==> 0 <= selectedIndices[k] < |vm.passengers|)
      && forall i, j :: 0 <= i < j < |selectedIndices| ==> selectedIndices[i] != selectedIndices[j]
    }

    constructor(model: PassengerViewModel)
      ensures vm == model && selectedIndices == [] && Valid()
    {
      vm := model;
      selectedIndices := [];
    }

    /** A click on a passenger's card: deselects it if selected, otherwise selects it. */
    method Toggle(index: int)
      requires Valid() && 0 <= index < |vm.passengers|
      modifies this
      ensures Valid()
      ensures index in old(selectedIndices) ==> index !in selectedIndices
      ensures index !in old(selectedIndices) ==> selectedIndices == old(selectedIndices) + [index]
      ensures forall i :: i != index ==> (i in selectedIndices <==> i in old(selectedIndices))
    {
      if index in selectedIndices {
        var k :| 0 <= k < |selectedIndices| && selectedIndices[k] == index;
        selectedIndices := RemoveFirst(selectedIndices, index, k);
      } else {
        selectedIndices := selectedIndices + [index];
      }
    }

    /** "Create group": all selected passengers get the fresh id `newGroup`, and the selection is cleared. */
    method CreateGroup(newGroup: string)
      requires Valid() && GroupButtonShown(selectedIndices)
      modifies this, vm
      ensures Valid() && selectedIndices == []
      ensures vm.passengers == Grouped(old(vm.passengers), old(selectedIndices), newGroup)
      ensures vm.inputMode == old(vm.inputMode) && vm.isFinished == old(vm.isFinished)
    {
      var passengers := vm.passengers;
      var selected := selectedIndices;
      var n := 0;
      while n < |selected|
        invariant 0 <= n <= |selected|
        invariant vm.passengers == Grouped(passengers, selected[..n], newGroup)
        invariant vm.inputMode == old(vm.inputMode) && vm.isFinished == old(vm.isFinished)
      {
        var i := selected[n];
        GroupedStep(passengers, selected, n, newGroup);
        vm.UpdatePassenger(i, passengers[i].(groupId := Some(newGroup)));
        n := n + 1;
      }
      assert selected[..n] == selected;
      selectedIndices := [];
    }
  }

  /** `remove(index)` on a list of distinct values where `index` is at position k. */
  function RemoveFirst(s: seq<int>, x: int, k: nat): (r: seq<int>)
    requires k < |s| && s[k] == x
    requires forall i, j :: 0 <= i < j < |s| ==> s[i] != s[j]
    ensures x !in r && forall y :: y != x ==> (y in r <==> y in s)
    ensures forall i, j :: 0 <= i < j < |r| ==> r[i] != r[j]
    ensures forall y :: y in r ==> y in s
  {
    var r := s[..k] + s[k + 1..];
    assert forall i :: 0 <= i < |r| ==> r[i] == if i < k then s[i] else s[i + 1];
    r
  }

  /** Grouping one more selected index is one more element update. */
  lemma {:induction false} GroupedStep(ps: seq<Passenger>, selected: seq<int>, n: nat, newGroup: string)
    requires n < |selected| && 0 <= selected[n] < |ps|
    ensures Grouped(ps, selected[..n + 1], newGroup) ==
      Grouped(ps, selected[..n], newGroup)[selected[n] := ps[selected[n]].(groupId := Some(newGroup))]
  {
    assert forall k :: k in selected[..n + 1] <==> k in selected[..n] || k == selected[n] by {
      assert selected[..n + 1] == selected[..n] + [selected[n]];
    }
  }

  /**
   * After grouping, the selected passengers share the group id and are shown as grouped when the id is
   * a real group's, and every other passenger is unchanged.
   */
  lemma {:induction false} GroupedShareGroup(ps: seq<Passenger>, selected: seq<int>, newGroup: string, i: nat, j: nat)
    requires i < |ps| && j < |ps|
    ensures i in selected && j in selected ==> Grouped(ps, selected, newGroup)[i].groupId == Grouped(ps, selected, newGroup)[j].groupId
    ensures i in selected ==> (IsGrouped(Grouped(ps, selected, newGroup)[i]) <==> newGroup != "" && newGroup != UngroupedId)
    ensures i !in selected ==> Grouped(ps, selected, newGroup)[i] == ps[i]
    ensures Grouped(ps, selected, newGroup)[i] == ps[i].(groupId := Grouped(ps, selected, newGroup)[i].groupId)
  {
  }
}
