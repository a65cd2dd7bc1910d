/**
 * The state logic of the poll-creation page: the list of option inputs, the
 * buttons that add and remove an input, typing into an input, and the checks
 * the page runs on submit before it calls `createPoll`.
 */
module CreatePollForm {
  import opened Wrappers
  import opened Text
  import opened PollValidation

  /** The page's own bounds on the number of option inputs. */
  const FormMinOptions: nat := 2
  const FormMaxOptions: nat := 5

  /** The two errors the page shows instead of submitting. */
  datatype FormError = QuestionMissing | TooFewOptions

  function FormMessage(e: FormError): string
  {
    match e
    case QuestionMissing => "Please enter a question"
    case TooFewOptions => "Please provide at least 2 options"
  }

  /** `options.map(o => o.trim())`. */
  function TrimAll(options: seq<string>): (r: seq<string>)
    ensures |r| == |options|
    ensures forall k :: 0 <= k < |r| ==> r[k] == Trim(options[k])
  {
    seq(|options|, k requires 0 <= k < |options| => Trim(options[k]))
  }

  /** `strings.filter(o => o.length > 0)`. */
  function DropEmpty(strings: seq<string>): (r: seq<string>)
    ensures |r| <= |strings|
    ensures forall k :: 0 <= k < |r| ==> r[k] != []
    ensures (forall k :: 0 <= k < |strings| ==> strings[k] != []) ==> r == strings
  {
    if strings == [] then []
    else (if strings[0] == [] then [] else [strings[0]]) + DropEmpty(strings[1..])
  }

  /** The options the page submits: each one trimmed, the blank ones dropped. */
  function NormalizeOptions(options: seq<string>): (r: seq<string>)
    ensures |r| <= |options|
    ensures forall k :: 0 <= k < |r| ==> r[k] != [] && IsTrimmed(r[k])
  {
    var trimmed := TrimAll(options);
    DropEmptyKeepsNonEmptyInOrder(trimmed, 0);
    assert trimmed[0..] == trimmed;
    DropEmpty(trimmed)
  }

  /**
   * The indices, from `start` on, of the non-empty entries of `strings`, in
   * increasing order (`NonEmptyIndicesComplete` shows that none is missed).
   */
  function NonEmptyIndices(strings: seq<string>, start: nat): (idx: seq<nat>)
    requires start <= |strings|
    decreases |strings| - start
    ensures forall k :: 0 <= k < |idx| ==> start <= idx[k] < |strings| && strings[idx[k]] != []
    ensures forall k, l :: 0 <= k < l < |idx| ==> idx[k] < idx[l]
  {
    if start == |strings| then []
    else
      var rest := NonEmptyIndices(strings, start + 1);
      if strings[start] == [] then rest else [start] + rest
  }

  lemma {:induction false} NonEmptyIndicesComplete(strings: seq<string>, start: nat, j: int)
    requires start <= j < |strings| && strings[j] != []
    decreases |strings| - start
    ensures j in NonEmptyIndices(strings, start)
  {
    if j != start {
      NonEmptyIndicesComplete(strings, start + 1, j);
    }
  }

  /** Filtering keeps exactly the non-empty entries, in their original order. */
  lemma {:induction false} DropEmptyKeepsNonEmptyInOrder(strings: seq<string>, start: nat)
    requires start <= |strings|
    decreases |strings| - start
    ensures |DropEmpty(strings[start..])| == |NonEmptyIndices(strings, start)|
    ensures forall k :: 0 <= k < |NonEmptyIndices(strings, start)| ==>
              DropEmpty(strings[start..])[k] == strings[NonEmptyIndices(strings, start)[k]]
  {
    if start < |strings| {
      var rest := NonEmptyIndices(strings, start + 1);
      var tail := DropEmpty(strings[start + 1..]);
      DropEmptyKeepsNonEmptyInOrder(strings, start + 1);
      assert strings[start..][0] == strings[start];
      assert strings[start..][1..] == strings[start + 1..];
      if strings[start] != [] {
        assert DropEmpty(strings[start..]) == [strings[start]] + tail;
        forall k | 1 <= k <= |rest|
          ensures ([strings[start]] + tail)[k] == strings[([start] + rest)[k]]
        {
          assert ([start] + rest)[k] == rest[k - 1];
        }
      }
    }
  }

  /** Filtering a concatenation filters each part. */
  lemma {:induction false} DropEmptyAppend(a: seq<string>, b: seq<string>)
    ensures DropEmpty(a + b) == DropEmpty(a) + DropEmpty(b)
  {
    if a != [] {
      var head := if a[0] == [] then [] else [a[0]];
      assert (a + b)[0] == a[0];
      assert (a + b)[1..] == a[1..] + b;
      assert DropEmpty(a + b) == head + DropEmpty(a[1..] + b);
      DropEmptyAppend(a[1..], b);
      assert DropEmpty(a) == head + DropEmpty(a[1..]);
    } else {
      assert a + b == b;
    }
  }

  /** Normalising a concatenation normalises each part. */
  lemma NormalizeAppend(a: seq<string>, b: seq<string>)
    ensures NormalizeOptions(a + b) == NormalizeOptions(a) + NormalizeOptions(b)
  {
    var left, right := TrimAll(a), TrimAll(b);
    assert TrimAll(a + b) == left + right by {
      forall k | 0 <= k < |a + b| ensures TrimAll(a + b)[k] == (left + right)[k] {
        assert TrimAll(a + b)[k] == Trim((a + b)[k]);
        if k < |a| {
          assert (a + b)[k] == a[k] && (left + right)[k] == left[k];
        } else {
          assert (a + b)[k] == b[k - |a|] && (left + right)[k] == right[k - |a|];
        }
      }
    }
    DropEmptyAppend(TrimAll(a), TrimAll(b));
  }

  /**
   * The checks of `handleSubmit`: the trimmed question must not be empty and
   * at least two options must remain after normalising; on success the
   * payload passed to `createPoll`.
   */
  function PrepareSubmission(question: string, options: seq<string>): (r: Result<PollInput, FormError>)
    ensures r == Failure(QuestionMissing) <==> Trim(question) == []
    ensures r == Failure(TooFewOptions) <==> Trim(question) != [] && |NormalizeOptions(options)| < FormMinOptions
    ensures r.Success? ==> r.value == PollInput(Trim(question), NormalizeOptions(options))
  {
    var trimmedQuestion := Trim(question);
    var trimmedOptions := NormalizeOptions(options);
    if trimmedQuestion == [] then Failure(QuestionMissing)
    else if |trimmedOptions| < FormMinOptions then Failure(TooFewOptions)
    else Success(PollInput(trimmedQuestion, trimmedOptions))
  }

  /** The text `handleSubmit` shows for a refused form, by the first check it fails. */
  lemma SubmissionMessage(question: string, options: seq<string>)
    requires PrepareSubmission(question, options).Failure?
    ensures FormMessage(PrepareSubmission(question, options).error)
            == if Trim(question) == [] then "Please enter a question" else "Please provide at least 2 options"
  {
  }

  /** The `CreatePollPage` component's state. */
  class PollForm {
    var question: string
    var options: seq<string>

    /** The page always shows between 2 and 5 option inputs. */
    ghost predicate Valid()
      reads this
    {
      FormMinOptions <= |options| <= FormMaxOptions
    }

    /** The initial state: an empty question and two empty options. */
    constructor ()
      ensures Valid()
      ensures question == "" && options == ["", ""]
    {
      question := "";
      options := ["", ""];
    }

    /** Typing into the question input. */
    method SetQuestion(value: string)
      modifies this`question
      ensures question == value
    {
      question := value;
    }

    /** `addOption`: append an empty option while there are fewer than 5. */
    method AddOption()
      requires Valid()
      modifies this`options
      ensures Valid()
      ensures |old(options)| < FormMaxOptions ==> options == old(options) + [""]
      ensures |old(options)| >= FormMaxOptions ==> options == old(options)
    {
      if |options| < FormMaxOptions {
        options := options + [""];
      }
    }

    /**
     * `removeOption`: while there are more than 2 options, keep every entry
     * whose index differs from `index` (an index out of range removes nothing).
     */
    method RemoveOption(index: int)
      requires Valid()
      modifies this`options
      ensures Valid()
      ensures |old(options)| > FormMinOptions && 0 <= index < |old(options)| ==>
                && |options| == |old(options)| - 1
                && (forall k :: 0 <= k < index ==> options[k] == old(options)[k])
                && (forall k :: index <= k < |options| ==> options[k] == old(options)[k + 1])
      ensures !(|old(options)| > FormMinOptions && 0 <= index < |old(options)|) ==> options == old(options)
    {
      if |options| > FormMinOptions {
        if 0 <= index < |options| {
          options := options[..index] + options[index + 1..];
        }
      }
    }

    /** `updateOption`: a copy of the list with entry `index` replaced by `value`. */
    method UpdateOption(index: int, value: string)
      requires Valid()
      requires 0 <= index < |options|
      modifies this`options
      ensures Valid()
      ensures |options| == |old(options)| && options[index] == value
      ensures forall k :: 0 <= k < |options| && k != index ==> options[k] == old(options)[k]
    {
      var updated := options;
      updated := updated[index := value];
      options := updated;
    }
  }

  /**
   * Whatever `handleSubmit` sends from a form in a valid state is accepted,
   * unchanged, by the server's input validator.
   */
  lemma SubmissionPassesServerValidation(form: PollForm)
    requires form.Valid()
    ensures PrepareSubmission(form.question, form.options).Success? ==>
              ValidateCreatePoll(PrepareSubmission(form.question, form.options).value)
                == Success(PrepareSubmission(form.question, form.options).value)
  {
    var r := PrepareSubmission(form.question, form.options);
    if r.Success? {
      AcceptsTrimmedPayload(r.value);
    }
  }
}
