/**
 * The backend's domain `SummarizationRequest`: its declared field constraints and defaults,
 * and the validator that strips the text. The declared minimum length of the text is checked
 * on the text as sent, before the validator strips it.
 */
module DomainModels {
  import opened Wrappers
  import opened Strings
  import opened Fields

  const MinTextLength: int := 10

  datatype RequestInput = RequestInput(
    text: string,
    modelName: Supplied<string>,
    maxLength: Supplied<int>,
    minLength: Supplied<int>,
    numBeams: Supplied<int>,
    lengthPenalty: Supplied<real>)

  datatype SummarizationRequest = SummarizationRequest(
    text: string,
    modelName: Option<string>,
    maxLength: Option<int>,
    minLength: Option<int>,
    numBeams: Option<int>,
    lengthPenalty: Option<real>)

  /** The text fails its declared minimum length or, when long enough, the validator. */
  predicate TextRejected(text: string) {
    |text| < MinTextLength || IsBlank(text)
  }

  /** The names of the fields that fail validation, in declaration order. */
  function RequestErrors(input: RequestInput): seq<string> {
    (if TextRejected(input.text) then ["text"] else [])
    + (if IntWithin(Resolve(input.maxLength, 300), 1, Some(1000)) then [] else ["max_length"])
    + (if IntWithin(Resolve(input.minLength, 100), 1, Some(500)) then [] else ["min_length"])
    + (if IntWithin(Resolve(input.numBeams, 4), 1, Some(8)) then [] else ["num_beams"])
    + (if RealWithin(Resolve(input.lengthPenalty, 2.0), 0.0, 5.0) then [] else ["length_penalty"])
  }

  /** Building a `SummarizationRequest`: the defaults fill the omitted fields, every bound is
      checked, and the text, at least ten characters as sent and not blank, is stored
      stripped; every failing field is reported. */
  function Validate(input: RequestInput): (r: Result<SummarizationRequest, seq<string>>)
    ensures r.Ok? <==>
      (&& |input.text| >= MinTextLength && !IsBlank(input.text)
       && IntWithin(Resolve(input.maxLength, 300), 1, Some(1000))
       && IntWithin(Resolve(input.minLength, 100), 1, Some(500))
       && IntWithin(Resolve(input.numBeams, 4), 1, Some(8))
       && RealWithin(Resolve(input.lengthPenalty, 2.0), 0.0, 5.0))
    ensures r.Ok? ==> r.value.text == Strip(input.text) && r.value.text != "" && Trimmed(r.value.text)
    ensures r.Ok? ==>
      (&& r.value.modelName == GivenValue(input.modelName)
       && r.value.maxLength == Resolve(input.maxLength, 300)
       && r.value.minLength == Resolve(input.minLength, 100)
       && r.value.numBeams == Resolve(input.numBeams, 4)
       && r.value.lengthPenalty == Resolve(input.lengthPenalty, 2.0))
    ensures r.Err? ==> r.error != [] && ("text" in r.error <==> TextRejected(input.text))
  {
    var errors := RequestErrors(input);
    if errors != [] then Err(errors)
    else
      StripBlank(input.text);
      Ok(SummarizationRequest(
        Strip(input.text),
        GivenValue(input.modelName),
        Resolve(input.maxLength, 300),
        Resolve(input.minLength, 100),
        Resolve(input.numBeams, 4),
        Resolve(input.lengthPenalty, 2.0)))
  }

  /** An accepted request keeps every number within its declared bounds. */
  lemma AcceptedRequestBounds(input: RequestInput)
    requires Validate(input).Ok?
    ensures var q := Validate(input).value;
      && (q.maxLength.Some? ==> 0 < q.maxLength.value <= 1000)
      && (q.minLength.Some? ==> 0 < q.minLength.value <= 500)
      && (q.numBeams.Some? ==> 0 < q.numBeams.value <= 8)
      && (q.lengthPenalty.Some? ==> 0.0 <= q.lengthPenalty.value <= 5.0)
  {
  }

  /** With only the text given, the request takes the declared defaults. */
  lemma RequestDefaults(text: string)
    requires |text| >= MinTextLength && !IsBlank(text)
    ensures Validate(RequestInput(text, Omitted, Omitted, Omitted, Omitted, Omitted))
         == Ok(SummarizationRequest(Strip(text), None, Some(300), Some(100), Some(4), Some(2.0)))
  {
  }

  /** The minimum length is checked before stripping, so a stored text can be shorter than
      ten characters: ten characters of which nine are spaces are stored as one. */
  lemma StoredTextMayBeShort()
    ensures var input := RequestInput("a         ", Omitted, Omitted, Omitted, Omitted, Omitted);
      Validate(input).Ok? && Validate(input).value.text == "a"
  {
    var t := "a         ";
    assert !IsBlank(t) by { assert !IsSpace(t[0]); }
    assert TrimStart(t) == t;
    assert t == "a" + "         ";
    TrimEndBlankSuffix("a", "         ");
  }

  /** Nothing relates the two lengths: a minimum above the maximum is accepted. */
  lemma MinAboveMaxAccepted(text: string)
    requires |text| >= MinTextLength && !IsBlank(text)
    ensures Validate(RequestInput(text, Omitted, Given(Some(1)), Given(Some(500)), Omitted, Omitted)).Ok?
  {
  }
}
