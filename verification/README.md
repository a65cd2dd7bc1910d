# Anonymous polls: a Dafny model of the poll server and the creation form

The application lets anyone create a poll (a question with 2 to 5 options),
share its link, and vote on it once per browser token; the results page
shows each option's vote count and its rounded percentage. This project
models the application's core and proves properties of it:

- the server functions of `src/server/polls.ts`:
  - `createPoll`: its input validator, then its handler;
  - `getPoll` and `getPollResults`;
  - `castVote`;
- the state logic of the poll-creation page in `src/routes/index.tsx`:
  - the option list and its add, remove and update actions;
  - the checks `handleSubmit` runs before calling `createPoll`.

Modules:

- `Text` models JavaScript's `String.prototype.trim`. It uses ECMAScript's
  WhiteSpace and LineTerminator code points (sections 12.2 and 12.3 of
  ECMA-262).
- `PollValidation` models the `createPoll` input validator. Its errors are
  checked in the source's order: the question first, then the number of
  options, then blank options.
- `PollTables` models the database rows and the queries the server runs:
  - the `Poll`, `PollOption` and `Vote` rows;
  - selecting a poll's options;
  - `ORDER BY position`;
  - `findFirst` on an option;
  - the vote counts;
  - the rounded percentage.
- `PollStore` models the database as a `Store` object with three tables.
  - The tables are a map of polls plus sequences of option and vote rows.
  - The server functions are its methods (when they change the tables) or
    its functions (when they only read).
  - The invariant `Valid` holds that:
    - option ids are distinct;
    - every poll has 2 to 5 options, stored with positions `0..n-1`;
    - every stored question and option text is trimmed and non-empty, as
      the validator leaves it;
    - every vote names an existing option of its poll;
    - there is at most one vote per `(pollId, voterToken)`, which is the
      table's unique constraint.
- `CreatePollForm` models the page's state as a `PollForm` object. It also
  defines the pure functions for the submit checks and proves that whatever
  the page submits passes the server's validator.

Some values come from outside the model, so they are parameters:

- `pollId` and the option ids, which the database generates. The methods
  require them to be fresh.
- `createdAt` (the database clock).
- `storageFails`: whether an insert fails. For `createPoll` this is the
  insert of the poll with its options. For `castVote` it is the insert of
  the vote, and an error that is not the unique-constraint violation.
- `lookupFails`: whether `castVote`'s option lookup fails. That lookup runs
  before the `try`, so its failure propagates as a storage error.

## Model

| member | source | states |
|---|---|---|
| Text.Trim | src/server/polls.ts:6 | `trim` yields a string with no whitespace at either end, no longer than its input, and empty exactly when the input is all whitespace |
| Text.TrimRemovesOnlyEdgeSpace | src/server/polls.ts:6 | `trim`'s result is a slice `s[i..j]` of its input, and everything cut off before `i` and after `j` is whitespace |
| Text.TrimIdempotent | src/server/polls.ts:14 | trimming an already trimmed string changes nothing |
| PollValidation.TrimOptions | src/server/polls.ts:13-19 | the options map to their trimmed forms pointwise, and the map fails exactly when some option trims to empty |
| PollValidation.ValidateCreatePoll | src/server/polls.ts:5-21 | fails exactly when the trimmed question is empty, or the option count is outside 2..5, or an option is blank; the errors keep the source's order; on success the payload holds the trimmed question and the pointwise-trimmed options |
| PollValidation.RefusalMessage | src/server/polls.ts:7-17 | a refused payload gets the text of the first check it fails: "Question cannot be empty", then "Must provide 2-5 options", then "All options must be non-empty strings" |
| PollValidation.ValidatedIsNormalized | src/server/polls.ts:5-21 | what the validator accepts comes out with a trimmed, non-empty question and trimmed, non-empty options |
| PollValidation.ValidateIdempotent | src/server/polls.ts:5-21 | the validator accepts its own output and returns it unchanged |
| PollValidation.AcceptsTrimmedPayload | src/server/polls.ts:5-21 | a payload with a trimmed non-empty question and trimmed non-empty options is accepted unchanged exactly when it has 2..5 options |
| PollTables.OptionsOf | src/server/polls.ts:42-46 | selecting a poll's options keeps exactly the rows with that `pollId` |
| PollTables.OptionsOfAppend | src/server/polls.ts:42-46 | selecting from a concatenation selects from each part |
| PollTables.OptionsOfDistinct | src/server/polls.ts:42-46 | the selected options of a table with distinct ids have distinct ids |
| PollTables.NewOptionRows | src/server/polls.ts:26-31 | one option row per option, with the option's text and `position` equal to its index |
| PollTables.InsertByPosition | src/server/polls.ts:43-45 | inserting into a position-sorted list keeps it sorted and adds exactly that row |
| PollTables.SortByPosition | src/server/polls.ts:43-45 | `orderBy position asc` returns a permutation of its rows sorted by position |
| PollTables.SortSortedIsIdentity | src/server/polls.ts:43-45 | sorting rows that are already in position order returns them unchanged |
| PollTables.FindOption | src/server/polls.ts:97-99 | `findFirst` finds nothing exactly when no option has both that id and that poll; otherwise it returns such a row |
| PollTables.AppendKeepsOneVotePerToken | src/server/polls.ts:105-111 | appending a vote whose `(pollId, voterToken)` is new keeps the unique constraint |
| PollTables.VoteCount | src/server/polls.ts:59-67 | a poll's or an option's vote count is at most the number of votes, and zero exactly when no vote names that poll or option |
| PollTables.VoteCountIsMatchingRows | src/server/polls.ts:59-67 | a vote count equals the number of rows of the votes table that name that poll or option |
| PollTables.VoteCountSnoc | src/server/polls.ts:59-67 | one more vote row adds one to the count of exactly the poll and the option it names |
| PollTables.OptionCountAtMostPollCount | src/server/polls.ts:59-67 | when every vote for the option belongs to the poll, the option's count is at most the poll's count |
| PollTables.CountsAddUp | src/server/polls.ts:59-73 | with distinct option ids, and every vote of the poll naming one of its options, the option counts add up to the poll's count |
| PollTables.PercentageExample | src/server/polls.ts:84-87 | four votes split 3, 1 and 0 show as 75, 25 and 0 percent |
| PollTables.RoundedPercentage | src/server/polls.ts:84-87 | `Math.round(votes / total * 100)`: the nearest integer to 100·votes/total, halves rounded up, and at most 100 when votes ≤ total |
| PollStore.AddPollKeepsOptionsWellFormed | src/server/polls.ts:23-33 | adding a new poll with 2..5 fresh, in-order option rows keeps the options invariant, and the new poll's options are exactly the added rows |
| PollStore.Store.GetPoll | src/server/polls.ts:37-49 | `null` exactly for an unknown id; otherwise the poll's fields and its options, sorted by position and a permutation of its stored rows |
| PollStore.AddPollKeepsInvariants | src/server/polls.ts:22-35 | the handler's insert of a validated poll with fresh ids keeps every table invariant (options, texts, votes), and the new poll's options are exactly its new rows |
| PollStore.StoredTextsAreTrimmed | src/server/polls.ts:37-49 | in a valid store, `getPoll` returns a trimmed, non-empty question and trimmed, non-empty option texts |
| PollStore.StoredPollReadsBack | src/server/polls.ts:37-49 | in a valid store, `getPoll` returns a poll's option rows exactly as stored, with positions `0..n-1` |
| PollStore.Store.GetPollResults | src/server/polls.ts:51-90 | `null` exactly for an unknown id; otherwise the poll's fields and its total vote count; each option, in `getPoll`'s order, has its own vote count; the percentage is 0 when there are no votes and the rounded percentage otherwise |
| PollStore.ResultsExample | src/server/polls.ts:51-90 | a poll whose three option rows are stored out of position order, with four votes split 3, 1 and 0: `getPollResults` gives a total of 4 and lists the options by position with 3 votes at 75%, 1 at 25% and 0 at 0% |
| PollStore.ResultsVotesAddUp | src/server/polls.ts:73-83 | in a valid store, the options' vote counts in the results add up to `totalVotes` |
| PollStore.PercentagesInRange | src/server/polls.ts:84-87 | in a valid store, every percentage in the results lies in 0..100 |
| PollStore.Store.InsertPoll | src/server/polls.ts:22-35 | takes a validated payload (trimmed, non-empty texts, 2..5 options); a failed insert changes nothing and yields no id; otherwise the handler adds one poll row and one option row per option at its index and returns the new id; the invariant is kept and votes are left alone |
| PollStore.Store.CreatePoll | src/server/polls.ts:4-35 | a refused input returns the validator's error and changes nothing; a failed insert returns a storage error and changes nothing; otherwise the trimmed poll is stored, and `getPoll` then returns it with its options in the submitted order |
| PollStore.Store.InsertVote | src/server/polls.ts:105-123 | a storage failure changes nothing; a duplicate `(pollId, voterToken)` is refused and changes nothing; otherwise exactly that vote is appended; the unique constraint is preserved |
| PollStore.Store.CastVote | src/server/polls.ts:92-125 | a failed option lookup propagates as a storage error; an option that is not an option of the poll gives "Invalid option"; a duplicate token gives "You have already voted on this poll"; a storage error propagates; each of these leaves the tables unchanged; otherwise exactly one vote is added; the invariant is kept |
| PollStore.SameTokenCountsOnce | src/server/polls.ts:104-122 | two votes with one token on one poll: the first is accepted, the second is refused as a duplicate, and exactly one vote is stored |
| CreatePollForm.TrimAll | src/routes/index.tsx:43-44 | every option is replaced by its trimmed form |
| CreatePollForm.DropEmpty | src/routes/index.tsx:45 | the filter returns only non-empty entries, no more than the input has, and everything when no entry is empty |
| CreatePollForm.NonEmptyIndices | src/routes/index.tsx:45 | the positions of the entries the filter keeps: strictly increasing indices of non-empty entries |
| CreatePollForm.NormalizeOptions | src/routes/index.tsx:43-45 | the submitted options are non-empty and trimmed, and there are no more of them than inputs |
| CreatePollForm.NonEmptyIndicesComplete | src/routes/index.tsx:45 | every non-empty entry's index is among the kept indices |
| CreatePollForm.DropEmptyKeepsNonEmptyInOrder | src/routes/index.tsx:45 | the filter keeps exactly the non-empty entries, in their original order |
| CreatePollForm.DropEmptyAppend | src/routes/index.tsx:45 | filtering a concatenation filters each part |
| CreatePollForm.NormalizeAppend | src/routes/index.tsx:43-45 | normalising a concatenation normalises each part |
| CreatePollForm.PrepareSubmission | src/routes/index.tsx:42-60 | "Please enter a question" exactly when the trimmed question is empty; otherwise "Please provide at least 2 options" exactly when fewer than 2 options remain; otherwise the payload of trimmed question and normalised options |
| CreatePollForm.PollForm.constructor | src/routes/index.tsx:11-12 | the form starts with an empty question and two empty options |
| CreatePollForm.PollForm.SetQuestion | src/routes/index.tsx:98 | typing into the question input sets the question to the typed text |
| CreatePollForm.PollForm.AddOption | src/routes/index.tsx:20-24 | an empty option is appended while there are fewer than 5, otherwise nothing changes; 2..5 options are kept |
| CreatePollForm.PollForm.RemoveOption | src/routes/index.tsx:26-30 | with more than 2 options, exactly the entry at the index is removed and the order of the rest is kept; otherwise, or for an index out of range, nothing changes; 2..5 options are kept |
| CreatePollForm.PollForm.UpdateOption | src/routes/index.tsx:32-36 | only the entry at the index changes, to the new value; the length is kept |
| CreatePollForm.SubmissionMessage | src/routes/index.tsx:47-53 | a refused form shows "Please enter a question" when the trimmed question is empty and "Please provide at least 2 options" otherwise |
| CreatePollForm.SubmissionPassesServerValidation | src/routes/index.tsx:42-60 | from a form with 2..5 options, any payload the page submits is accepted unchanged by the server's validator |

## Left out

- Concurrency: two `castVote` calls racing for the same token are modelled one after the other. The database's unique constraint decides the race, and the model only covers the sequential outcome.
- Recognising a duplicate by the error message containing "Unique constraint" is modelled as the database reporting `Duplicate`; every other error is `storageFails`.
- PollStore.Store.CastVote: a storage failure is checked before the duplicate check, because both are decided inside one database call that the model does not split further.
- PollTables.RoundedPercentage: it computes with exact integers, while the source divides and multiplies IEEE doubles before `Math.round`. Where the exact value is a half, floating-point error may push the source's result down by one; the model does not capture this.
- Reads always succeed in `GetPoll` and `GetPollResults`. In the source, a failed `findUnique` (src/server/polls.ts:40 and 54) throws and propagates to the caller. Only `CastVote`'s lookup has a failure flag, because its outcome there is a storage error beside the refusal results.
- Poll and option ids and the poll's creation time are parameters that the callers supply; the ids are required to be fresh.
- Vote rows carry no id and no creation time: nothing in the core reads them, so a vote is just its poll, option and voter token.
- The database schema file is not part of this model. Its foreign keys and its unique constraint on `(pollId, voterToken)` are represented by the invariant `Valid` and by `InsertVote`.
- The database is a single `Store` object; transactions and the connection setup in `src/db.ts` are not part of this model.
- CreatePollForm.PollForm.UpdateOption: it requires an index inside the list. With an out-of-range index, JavaScript would grow a sparse array, and the page never passes one.
- The page's `maxLength` input limits, its `submitting` and `error` display state, navigation after creation, the rendering, and the `optionKeys` React keys are not modelled: they are UI, not poll logic.
- The `createPoll` error thrown back to the page ("Failed to create poll. Please try again.") is not modelled; it only reaches the screen.
- The voting page, the results page's polling refresh and the browser-side token storage are not part of this model.
