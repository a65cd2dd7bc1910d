/**
 * The input validator of the `createPoll` server function: it trims the
 * question and every option and refuses a blank question, an option list of
 * the wrong size, or a blank option. A refusal is the thrown `Error`.
 */
module PollValidation {
  import opened Wrappers
  import opened Text

  const MinOptions: nat := 2
  const MaxOptions: nat := 5

  /** The payload `{ question, options }` sent to `createPoll`. */
  datatype PollInput = PollInput(question: string, options: seq<string>)

  /** The three errors the validator throws, in the order it checks them. */
  datatype ValidationError = EmptyQuestion | OptionCountOutOfRange | EmptyOption

  function Message(e: ValidationError): string
  {
    match e
    case EmptyQuestion => "Question cannot be empty"
    case OptionCountOutOfRange => "Must provide 2-5 options"
    case EmptyOption => "All options must be non-empty strings"
  }

  /** True when some option is blank once trimmed. */
  predicate SomeOptionBlank(options: seq<string>)
  {
    exists i :: 0 <= i < |options| && Trim(options[i]) == []
  }

  /**
   * `options.map(o => { trimmed = o.trim(); if empty throw; return trimmed })`:
   * `None` when some option trims to the empty string, otherwise every option
   * trimmed, in the same order.
   */
  function TrimOptions(options: seq<string>): (r: Option<seq<string>>)
    ensures r.None? <==> SomeOptionBlank(options)
    ensures r.Some? ==> |r.value| == |options|
    ensures r.Some? ==> forall i :: 0 <= i < |options| ==> r.value[i] == Trim(options[i])
  {
    if options == [] then Some([])
    else
      var head := Trim(options[0]);
      var rest := TrimOptions(options[1..]);
      if head == [] || rest.None? then None
      else Some([head] + rest.value)
  }

  /** The whole validator: the normalised payload, or the first error it throws. */
  function ValidateCreatePoll(data: PollInput): (r: Result<PollInput, ValidationError>)
    ensures r.Failure? <==>
              || Trim(data.question) == []
              || |data.options| < MinOptions || |data.options| > MaxOptions
              || SomeOptionBlank(data.options)
    ensures Trim(data.question) == [] ==> r == Failure(EmptyQuestion)
    ensures (Trim(data.question) != [] && !(MinOptions <= |data.options| <= MaxOptions))
            ==> r == Failure(OptionCountOutOfRange)
    ensures (Trim(data.question) != [] && MinOptions <= |data.options| <= MaxOptions && SomeOptionBlank(data.options))
            ==> r == Failure(EmptyOption)
    ensures r.Success? ==> r.value.question == Trim(data.question)
    ensures r.Success? ==> |r.value.options| == |data.options|
    ensures r.Success? ==> forall i :: 0 <= i < |data.options| ==> r.value.options[i] == Trim(data.options[i])
  {
    var question := Trim(data.question);
    if question == [] then Failure(EmptyQuestion)
    else if |data.options| < MinOptions || |data.options| > MaxOptions then Failure(OptionCountOutOfRange)
    else
      match TrimOptions(data.options)
      case None => Failure(EmptyOption)
      case Some(options) => Success(PollInput(question, options))
  }

  /** The text of the `Error` thrown for a refused payload, by the first check it fails. */
  lemma RefusalMessage(data: PollInput)
    requires ValidateCreatePoll(data).Failure?
    ensures Message(ValidateCreatePoll(data).error)
            == if Trim(data.question) == [] then "Question cannot be empty"
               else if !(MinOptions <= |data.options| <= MaxOptions) then "Must provide 2-5 options"
               else "All options must be non-empty strings"
  {
  }

  /** A payload whose question and options are all trimmed and non-empty. */
  predicate Normalized(data: PollInput)
  {
    && IsTrimmed(data.question) && data.question != []
    && forall i :: 0 <= i < |data.options| ==> IsTrimmed(data.options[i]) && data.options[i] != []
  }

  /** What the validator returns is trimmed and non-empty throughout. */
  lemma ValidatedIsNormalized(data: PollInput)
    requires ValidateCreatePoll(data).Success?
    ensures Normalized(ValidateCreatePoll(data).value)
  {
    var out := ValidateCreatePoll(data).value;
    forall i | 0 <= i < |out.options|
      ensures IsTrimmed(out.options[i]) && out.options[i] != []
    {
      assert out.options[i] == Trim(data.options[i]);
      assert !SomeOptionBlank(data.options);
    }
  }

  /** What the validator accepts it also accepts again, unchanged. */
  lemma ValidateIdempotent(data: PollInput)
    requires ValidateCreatePoll(data).Success?
    ensures ValidateCreatePoll(ValidateCreatePoll(data).value) == ValidateCreatePoll(data)
  {
    ValidatedIsNormalized(data);
    AcceptsTrimmedPayload(ValidateCreatePoll(data).value);
  }

  /** A payload that is already trimmed and non-blank is accepted exactly when it has 2 to 5 options. */
  lemma AcceptsTrimmedPayload(data: PollInput)
    requires IsTrimmed(data.question) && data.question != []
    requires forall i :: 0 <= i < |data.options| ==> IsTrimmed(data.options[i]) && data.options[i] != []
    ensures ValidateCreatePoll(data).Success? <==> MinOptions <= |data.options| <= MaxOptions
    ensures MinOptions <= |data.options| <= MaxOptions ==> ValidateCreatePoll(data) == Success(data)
  {
    TrimOfTrimmed(data.question);
    forall i | 0 <= i < |data.options|
      ensures Trim(data.options[i]) == data.options[i]
    {
      TrimOfTrimmed(data.options[i]);
    }
    if MinOptions <= |data.options| <= MaxOptions {
      assert ValidateCreatePoll(data).value.options == data.options;
    }
  }
}
