/**
 * The trip search of the Android client (viewmodels/SearchViewModel.kt): departure, destination and a list
 * of intermediate stops, each a text field with an optional selected place, fed by autocomplete
 * predictions. The text of every stop is kept beside its selection in two parallel lists.
 */
module SearchViewModels {
  import opened Wrappers
  import opened ClientData

  /** `data class PlaceDetails`: a place picked from the predictions. */
  datatype PlaceDetails = PlaceDetails(description: string, placeId: string)

  /** Queries shorter than this are answered with no predictions and no call to the places service. */
  const MinQueryLength: nat := 3

  /** The places service's success status. */
  const StatusOk: string := "OK"

  /** The predictions `fetchPredictions(query)` publishes; `response` is the service's answer, None when the call throws. */
  function PredictionsFor(query: string, response: Option<PlacesResponse>): (ps: seq<Prediction>)
    ensures ps != [] ==> |query| >= MinQueryLength && response.Some? && response.value.status == StatusOk
    ensures ps != [] ==> ps == response.value.predictions
  {
    if |query| < MinQueryLength then []
    else if response.Some? && response.value.status == StatusOk then response.value.predictions
    else []
  }

  /** The place a prediction selects. */
  function Selection(prediction: Prediction): (d: PlaceDetails)
    ensures d.description == prediction.description && d.placeId == prediction.placeId
  {
    PlaceDetails(prediction.description, prediction.placeId)
  }

  /** What is left of a selection after its text is edited to `newText`. */
  function KeptSelection(selected: Option<PlaceDetails>, newText: string): (kept: Option<PlaceDetails>)
    ensures kept.Some? <==> selected.Some? && selected.value.description == newText
    ensures kept.Some? ==> kept == selected
  {
    if selected.Some? && selected.value.description == newText then selected else None
  }

  /** A selection is consistent with its text field when it is absent or describes exactly that text. */
  predicate Describes(selected: Option<PlaceDetails>, text: string) {
    selected.Some? ==> selected.value.description == text
  }

  /** `removeAt(i)`. */
  function RemoveAt<T>(s: seq<T>, i: nat): (r: seq<T>)
    requires i < |s|
    ensures |r| == |s| - 1
    ensures forall k :: 0 <= k < i ==> r[k] == s[k]
    ensures forall k :: i <= k < |r| ==> r[k] == s[k + 1]
  {
    s[..i] + s[i + 1..]
  }

  class SearchViewModel {
    var predictions: seq<Prediction>
    var departureText: string
    var selectedDeparture: Option<PlaceDetails>
    var destinationText: string
    var selectedDestination: Option<PlaceDetails>
    var intermediateStopsText: seq<string>
    var intermediateStopsDetails: seq<Option<PlaceDetails>>

    /** The two stop lists have one entry per stop, and every selection describes its text field. */
    predicate Valid()
      reads this
    {
      && |intermediateStopsText| == |intermediateStopsDetails|
      && Describes(selectedDeparture, departureText)
      && Describes(selectedDestination, destinationText)
      && forall k :: 0 <= k < |intermediateStopsDetails| ==> Describes(intermediateStopsDetails[k], intermediateStopsText[k])
    }

    constructor()
      ensures Valid()
      ensures predictions == [] && departureText == [] && selectedDeparture == None
      ensures destinationText == [] && selectedDestination == None
      ensures intermediateStopsText == [] && intermediateStopsDetails == []
    {
      predictions := [];
      departureText := [];
      selectedDeparture := None;
      destinationText := [];
      selectedDestination := None;
      intermediateStopsText := [];
      intermediateStopsDetails := [];
    }

    /**
     * `fetchPredictions`: returns the query sent to the places service, or None when the query is too
     * short to be sent.
     */
    method FetchPredictions(query: string, response: Option<PlacesResponse>) returns (requested: Option<string>)
      modifies this
      ensures requested.Some? <==> |query| >= MinQueryLength
      ensures requested.Some? ==> requested.value == query
      ensures predictions == PredictionsFor(query, response)
      ensures departureText == old(departureText) && selectedDeparture == old(selectedDeparture)
      ensures destinationText == old(destinationText) && selectedDestination == old(selectedDestination)
      ensures intermediateStopsText == old(intermediateStopsText)
      ensures intermediateStopsDetails == old(intermediateStopsDetails)
    {
      if |query| < MinQueryLength {
        predictions := [];
        return None;
      }
      requested := Some(query);
      if response.Some? && response.value.status == StatusOk {
        predictions := response.value.predictions;
      } else {
        predictions := [];
      }
    }

    /** `clearPredictions`. */
    method ClearPredictions()
      modifies this
      ensures predictions == []
      ensures departureText == old(departureText) && selectedDeparture == old(selectedDeparture)
      ensures destinationText == old(destinationText) && selectedDestination == old(selectedDestination)
      ensures intermediateStopsText == old(intermediateStopsText)
      ensures intermediateStopsDetails == old(intermediateStopsDetails)
    {
      predictions := [];
    }

    /** `onDepartureQueryChange`: the selection survives only if it still describes the text. */
    method OnDepartureQueryChange(newText: string, response: Option<PlacesResponse>) returns (requested: Option<string>)
      requires Valid()
      modifies this
      ensures Valid()
      ensures departureText == newText && selectedDeparture == KeptSelection(old(selectedDeparture), newText)
      ensures requested.Some? <==> |newText| >= MinQueryLength
      ensures predictions == PredictionsFor(newText, response)
      ensures destinationText == old(destinationText) && selectedDestination == old(selectedDestination)
      ensures intermediateStopsText == old(intermediateStopsText)
      ensures intermediateStopsDetails == old(intermediateStopsDetails)
    {
      departureText := newText;
      if !(selectedDeparture.Some? && selectedDeparture.value.description == newText) {
        selectedDeparture := None;
      }
      requested := FetchPredictions(newText, response);
    }

    /** `onDepartureSelected`. */
    method OnDepartureSelected(prediction: Prediction)
      requires Valid()
      modifies this
      ensures Valid()
      ensures departureText == prediction.description && selectedDeparture == Some(Selection(prediction))
      ensures predictions == []
      ensures destinationText == old(destinationText) && selectedDestination == old(selectedDestination)
      ensures intermediateStopsText == old(intermediateStopsText)
      ensures intermediateStopsDetails == old(intermediateStopsDetails)
    {
      departureText := prediction.description;
      selectedDeparture := Some(PlaceDetails(prediction.description, prediction.placeId));
      ClearPredictions();
    }

    /** `onDestinationQueryChange`: the selection survives only if it still describes the text. */
    method OnDestinationQueryChange(newText: string, response: Option<PlacesResponse>) returns (requested: Option<string>)
      requires Valid()
      modifies this
      ensures Valid()
      ensures destinationText == newText && selectedDestination == KeptSelection(old(selectedDestination), newText)
      ensures requested.Some? <==> |newText| >= MinQueryLength
      ensures predictions == PredictionsFor(newText, response)
      ensures departureText == old(departureText) && selectedDeparture == old(selectedDeparture)
      ensures intermediateStopsText == old(intermediateStopsText)
      ensures intermediateStopsDetails == old(intermediateStopsDetails)
    {
      destinationText := newText;
      if !(selectedDestination.Some? && selectedDestination.value.description == newText) {
        selectedDestination := None;
      }
      requested := FetchPredictions(newText, response);
    }

    /** `onDestinationSelected`. */
    method OnDestinationSelected(prediction: Prediction)
      requires Valid()
      modifies this
      ensures Valid()
      ensures destinationText == prediction.description && selectedDestination == Some(Selection(prediction))
      ensures predictions == []
      ensures departureText == old(departureText) && selectedDeparture == old(selectedDeparture)
      ensures intermediateStopsText == old(intermediateStopsText)
      ensures intermediateStopsDetails == old(intermediateStopsDetails)
    {
      destinationText := prediction.description;
      selectedDestination := Some(PlaceDetails(prediction.description, prediction.placeId));
      ClearPredictions();
    }

    /** `addIntermediateStop`: a new empty stop with no selection at the end. */
    method AddIntermediateStop()
      requires Valid()
      modifies this
      ensures Valid()
      ensures intermediateStopsText == old(intermediateStopsText) + [""]
      ensures intermediateStopsDetails == old(intermediateStopsDetails) + [None]
      ensures predictions == old(predictions)
      ensures departureText == old(departureText) && selectedDeparture == old(selectedDeparture)
      ensures destinationText == old(destinationText) && selectedDestination == old(selectedDestination)
    {
      intermediateStopsText := intermediateStopsText + [""];
      intermediateStopsDetails := intermediateStopsDetails + [None];
    }

    /** `removeIntermediateStop`: removes an in-range stop from both lists; other indices change nothing. */
    method RemoveIntermediateStop(index: int)
      requires Valid()
      modifies this
      ensures Valid()
      ensures 0 <= index < |old(intermediateStopsText)| ==>
        intermediateStopsText == RemoveAt(old(intermediateStopsText), index) &&
        intermediateStopsDetails == RemoveAt(old(intermediateStopsDetails), index)
      ensures !(0 <= index < |old(intermediateStopsText)|) ==>
        intermediateStopsText == old(intermediateStopsText) && intermediateStopsDetails == old(intermediateStopsDetails)
      ensures predictions == old(predictions)
      ensures departureText == old(departureText) && selectedDeparture == old(selectedDeparture)
      ensures destinationText == old(destinationText) && selectedDestination == old(selectedDestination)
    {
      if 0 <= index < |intermediateStopsText| {
        intermediateStopsText := RemoveAt(intermediateStopsText, index);
        intermediateStopsDetails := RemoveAt(intermediateStopsDetails, index);
      }
    }

    /** `onIntermediateQueryChange`: edits the text of an in-range stop and drops only its selection. */
    method OnIntermediateQueryChange(index: int, newText: string, response: Option<PlacesResponse>)
      returns (requested: Option<string>)
      requires Valid()
      modifies this
      ensures Valid()
      ensures 0 <= index < |old(intermediateStopsText)| ==>
        && intermediateStopsText == old(intermediateStopsText)[index := newText]
        && intermediateStopsDetails == old(intermediateStopsDetails)[index := None]
        && (requested.Some? <==> |newText| >= MinQueryLength)
        && predictions == PredictionsFor(newText, response)
      ensures !(0 <= index < |old(intermediateStopsText)|) ==>
        && intermediateStopsText == old(intermediateStopsText)
        && intermediateStopsDetails == old(intermediateStopsDetails)
        && requested.None? && predictions == old(predictions)
      ensures departureText == old(departureText) && selectedDeparture == old(selectedDeparture)
      ensures destinationText == old(destinationText) && selectedDestination == old(selectedDestination)
    {
      requested := None;
      if 0 <= index < |intermediateStopsText| {
        intermediateStopsText := intermediateStopsText[index := newText];
        intermediateStopsDetails := intermediateStopsDetails[index := None];
        requested := FetchPredictions(newText, response);
      }
    }

    /** `onIntermediateStopSelected`: an in-range stop takes the prediction's text and place. */
    method OnIntermediateStopSelected(index: int, prediction: Prediction)
      requires Valid()
      modifies this
      ensures Valid()
      ensures 0 <= index < |old(intermediateStopsText)| ==>
        && intermediateStopsText == old(intermediateStopsText)[index := prediction.description]
        && intermediateStopsDetails == old(intermediateStopsDetails)[index := Some(Selection(prediction))]
        && predictions == []
      ensures !(0 <= index < |old(intermediateStopsText)|) ==>
        && intermediateStopsText == old(intermediateStopsText)
        && intermediateStopsDetails == old(intermediateStopsDetails)
        && predictions == old(predictions)
      ensures departureText == old(departureText) && selectedDeparture == old(selectedDeparture)
      ensures destinationText == old(destinationText) && selectedDestination == old(selectedDestination)
    {
      if 0 <= index < |intermediateStopsText| {
        intermediateStopsText := intermediateStopsText[index := prediction.description];
        intermediateStopsDetails := intermediateStopsDetails[index := Some(PlaceDetails(prediction.description, prediction.placeId))];
        ClearPredictions();
      }
    }
  }

  // ---- properties ----

  /** A query shorter than three characters yields no predictions, whatever the service would answer. */
  lemma {:induction false} ShortQueryNoPredictions(query: string, response: Option<PlacesResponse>)
    requires |query| < MinQueryLength
    ensures PredictionsFor(query, response) == []
  {
  }

  /** Predictions are published exactly when the query is long enough and the service answers "OK". */
  lemma {:induction false} PredictionsPublished(query: string, response: Option<PlacesResponse>)
    requires response.Some? && response.value.predictions != []
    ensures PredictionsFor(query, response) == response.value.predictions <==>
      |query| >= MinQueryLength && response.value.status == StatusOk
  {
  }

  /** Editing a text keeps the selection consistent with it, and an unchanged selection text keeps the selection. */
  lemma {:induction false} KeptSelectionDescribes(selected: Option<PlaceDetails>, text: string, newText: string)
    requires Describes(selected, text)
    ensures Describes(KeptSelection(selected, newText), newText)
    ensures newText == text ==> KeptSelection(selected, newText) == selected
  {
  }

  /** Removing a stop and putting it back restores both lists. */
  lemma {:induction false} RemoveAtRestores<T>(s: seq<T>, i: nat)
    requires i < |s|
    ensures RemoveAt(s, i)[..i] + [s[i]] + RemoveAt(s, i)[i..] == s
  {
    var r := RemoveAt(s, i);
    assert r[..i] == s[..i];
    assert r[i..] == s[i + 1..];
    assert s == s[..i] + [s[i]] + s[i + 1..];
  }
}
