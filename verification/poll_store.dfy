/**
 * The server functions of `polls.ts` against an in-memory copy of the poll
 * database. The database's own guarantees are modelled explicitly: ids are
 * supplied fresh by the caller, a poll and its options are inserted in one
 * step, and inserting a vote is atomic and refused with `Duplicate` when a
 * vote with the same (pollId, voterToken) already exists.
 */
module PollStore {
  import opened Wrappers
  import opened Text
  import opened PollValidation
  import opened PollTables

  /** The `error` texts `castVote` returns. */
  const InvalidOption: string := "Invalid option"
  const AlreadyVoted: string := "You have already voted on this poll"

  /** What `getPoll` returns: the poll row with its options. */
  datatype PollView = PollView(id: Id, question: string, createdAt: int, options: seq<OptionRow>)

  /** One entry of `getPollResults(...).options`. */
  datatype OptionResult = OptionResult(id: Id, text: string, position: int, votes: nat, percentage: nat)

  /** What `getPollResults` returns for a known poll. */
  datatype PollResults = PollResults(id: Id, question: string, createdAt: int, totalVotes: nat, options: seq<OptionResult>)

  /** How the database answers an insert into the votes table. */
  datatype InsertOutcome = Inserted | Duplicate | OtherError

  /**
   * What `castVote` produces: `{ success: true }`, `{ success: false, error }`,
   * or an exception it lets through (`StorageError`).
   */
  datatype CastVoteResult = Voted | Rejected(error: string) | StorageError

  /** Why `createPoll` produces no id: the validator's error, or a database failure it lets through. */
  datatype CreatePollError = InvalidInput(reason: ValidationError) | CreateStorageError

  /** `poll.options.map(option => ({ ..., votes, percentage }))`. */
  function OptionResults(rows: seq<OptionRow>, votes: seq<VoteRow>, total: nat): seq<OptionResult>
  {
    seq(|rows|, i requires 0 <= i < |rows| =>
      var n := OptionVoteCount(votes, rows[i].id);
      OptionResult(rows[i].id, rows[i].text, rows[i].position, n,
                   if total > 0 then RoundedPercentage(n, total) else 0))
  }

  /** The `votes` of a list of option results, added up. */
  function SumVotes(results: seq<OptionResult>): nat
  {
    if results == [] then 0 else results[0].votes + SumVotes(results[1..])
  }

  lemma {:induction false} SumVotesOfResults(rows: seq<OptionRow>, votes: seq<VoteRow>, total: nat)
    ensures SumVotes(OptionResults(rows, votes, total)) == SumOptionCounts(rows, votes)
  {
    if rows != [] {
      assert OptionResults(rows, votes, total)[1..] == OptionResults(rows[1..], votes, total);
      SumVotesOfResults(rows[1..], votes, total);
    }
  }

  /** True when `ids` are pairwise distinct and none is the id of a row already in `rows`. */
  predicate FreshOptionIds(rows: seq<OptionRow>, ids: seq<Id>)
  {
    && (forall i, j :: 0 <= i < j < |ids| ==> ids[i] != ids[j])
    && (forall o, i :: o in rows && 0 <= i < |ids| ==> o.id != ids[i])
  }

  /**
   * The database invariants on the option table: option ids are unique, each
   * option belongs to a stored poll, and each poll has 2 to 5 options stored
   * in position order 0..n-1.
   */
  ghost predicate OptionsWellFormed(polls: map<Id, PollRow>, options: seq<OptionRow>)
  {
    && DistinctIds(options)
    && (forall o :: o in options ==> o.pollId in polls)
    && (forall p {:trigger OptionsOf(options, p)} :: p in polls ==> PollOptionsInOrder(OptionsOf(options, p)))
  }

  /** One poll's options: 2 to 5 of them, with positions 0..n-1 in table order. */
  ghost predicate PollOptionsInOrder(rows: seq<OptionRow>)
  {
    MinOptions <= |rows| <= MaxOptions && PositionsInOrder(rows)
  }

  /** Stored questions and option texts are trimmed and non-empty, as the validator leaves them. */
  ghost predicate TextsWellFormed(polls: map<Id, PollRow>, options: seq<OptionRow>)
  {
    && (forall p :: p in polls ==> IsTrimmed(polls[p].question) && polls[p].question != [])
    && (forall o :: o in options ==> IsTrimmed(o.text) && o.text != [])
  }

  /** Each vote names an option of its own poll, and no two votes share (pollId, voterToken). */
  ghost predicate VotesWellFormed(options: seq<OptionRow>, votes: seq<VoteRow>)
  {
    && (forall v :: v in votes ==> HasOption(options, v.pollId, v.optionId))
    && OneVotePerToken(votes)
  }

  /** Inserting a new poll with its rows keeps the option-table invariants. */
  lemma AddPollKeepsOptionsWellFormed(polls: map<Id, PollRow>, options: seq<OptionRow>,
                                      pollId: Id, row: PollRow, added: seq<OptionRow>)
    requires OptionsWellFormed(polls, options) && pollId !in polls
    requires forall i :: 0 <= i < |added| ==> added[i].pollId == pollId
    requires PollOptionsInOrder(added)
    requires DistinctIds(added) && forall o, a :: o in options && a in added ==> o.id != a.id
    ensures OptionsOf(options + added, pollId) == added
    ensures OptionsWellFormed(polls[pollId := row], options + added)
  {
    var all := options + added;
    var polls' := polls[pollId := row];
    assert OptionsOf(all, pollId) == added by {
      OptionsOfNone(options, pollId);
      OptionsOfAll(added, pollId);
      OptionsOfAppend(options, added, pollId);
    }
    assert forall p {:trigger OptionsOf(all, p)} :: p in polls' ==> PollOptionsInOrder(OptionsOf(all, p)) by {
      forall p | p in polls' ensures PollOptionsInOrder(OptionsOf(all, p)) {
        if p != pollId {
          OtherPollUnaffected(options, added, pollId, p);
          assert PollOptionsInOrder(OptionsOf(options, p));
        }
      }
    }
    assert forall o :: o in all ==> o.pollId in polls' by {
      forall o | o in all ensures o.pollId in polls' {
        if o !in options {
          var i :| 0 <= i < |added| && added[i] == o;
        }
      }
    }
    AppendKeepsDistinctIds(options, added);
  }

  lemma OtherPollUnaffected(options: seq<OptionRow>, added: seq<OptionRow>, pollId: Id, p: Id)
    requires forall i :: 0 <= i < |added| ==> added[i].pollId == pollId
    requires p != pollId
    ensures OptionsOf(options + added, p) == OptionsOf(options, p)
  {
    OptionsOfNone(added, p);
    OptionsOfAppend(options, added, p);
  }

  lemma AppendKeepsDistinctIds(rows: seq<OptionRow>, added: seq<OptionRow>)
    requires DistinctIds(rows) && DistinctIds(added)
    requires forall o, a :: o in rows && a in added ==> o.id != a.id
    ensures DistinctIds(rows + added)
  {
    var all := rows + added;
    forall i, j | 0 <= i < j < |all| ensures all[i].id != all[j].id {
      if i < |rows| <= j {
        assert all[i] in rows && all[j] in added;
      } else if |rows| <= i {
        assert all[i] == added[i - |rows|] && all[j] == added[j - |rows|];
      }
    }
  }

  /** The insert of `createPoll`'s handler keeps every table invariant. */
  lemma AddPollKeepsInvariants(polls: map<Id, PollRow>, options: seq<OptionRow>, votes: seq<VoteRow>,
                               valid: PollInput, pollId: Id, optionIds: seq<Id>, createdAt: int)
    requires OptionsWellFormed(polls, options) && TextsWellFormed(polls, options)
    requires VotesWellFormed(options, votes)
    requires Normalized(valid) && MinOptions <= |valid.options| <= MaxOptions && pollId !in polls
    requires |optionIds| == |valid.options| && FreshOptionIds(options, optionIds)
    ensures var added := NewOptionRows(pollId, optionIds, valid.options);
            && OptionsWellFormed(polls[pollId := PollRow(valid.question, createdAt)], options + added)
            && TextsWellFormed(polls[pollId := PollRow(valid.question, createdAt)], options + added)
            && VotesWellFormed(options + added, votes)
            && OptionsOf(options + added, pollId) == added
  {
    var added := NewOptionRows(pollId, optionIds, valid.options);
    var row := PollRow(valid.question, createdAt);
    forall o, a | o in options && a in added ensures o.id != a.id {
      var i :| 0 <= i < |added| && added[i] == a;
    }
    AddPollKeepsOptionsWellFormed(polls, options, pollId, row, added);
    AddOptionsKeepsVotesWellFormed(options, added, votes);
    AddPollKeepsTextsWellFormed(polls, options, pollId, row, added);
  }

  /** Inserting a poll whose question and option texts are trimmed and non-empty keeps them so. */
  lemma AddPollKeepsTextsWellFormed(polls: map<Id, PollRow>, options: seq<OptionRow>,
                                    pollId: Id, row: PollRow, added: seq<OptionRow>)
    requires TextsWellFormed(polls, options)
    requires IsTrimmed(row.question) && row.question != []
    requires forall i :: 0 <= i < |added| ==> IsTrimmed(added[i].text) && added[i].text != []
    ensures TextsWellFormed(polls[pollId := row], options + added)
  {
    forall o | o in options + added ensures IsTrimmed(o.text) && o.text != [] {
      if o !in options {
        var i :| 0 <= i < |added| && added[i] == o;
      }
    }
  }

  /** Adding option rows keeps every vote's option reference. */
  lemma AddOptionsKeepsVotesWellFormed(options: seq<OptionRow>, added: seq<OptionRow>, votes: seq<VoteRow>)
    requires VotesWellFormed(options, votes)
    ensures VotesWellFormed(options + added, votes)
  {
    forall v | v in votes ensures HasOption(options + added, v.pollId, v.optionId) {
      var o :| o in options && o.id == v.optionId && o.pollId == v.pollId;
      assert o in options + added;
    }
  }

  class Store {
    var polls: map<Id, PollRow>
    var options: seq<OptionRow>
    var votes: seq<VoteRow>

    ghost predicate Valid()
      reads this
    {
      OptionsWellFormed(polls, options) && TextsWellFormed(polls, options) && VotesWellFormed(options, votes)
    }

    /** An empty database. */
    constructor ()
      ensures Valid()
      ensures polls == map[] && options == [] && votes == []
    {
      polls := map[];
      options := [];
      votes := [];
    }

    /** The options of poll `pollId`, ordered by ascending position. */
    function OrderedOptions(pollId: Id): seq<OptionRow>
      reads this
    {
      SortByPosition(OptionsOf(options, pollId))
    }

    /** `getPoll`: the poll with its options in position order, or `null`. */
    function GetPoll(pollId: Id): (r: Option<PollView>)
      reads this
      ensures r.None? <==> pollId !in polls
      ensures r.Some? ==>
        && r.value.id == pollId
        && r.value.question == polls[pollId].question
        && r.value.createdAt == polls[pollId].createdAt
      ensures r.Some? ==> SortedByPosition(r.value.options)
      ensures r.Some? ==> multiset(r.value.options) == multiset(OptionsOf(options, pollId))
    {
      if pollId !in polls then None
      else Some(PollView(pollId, polls[pollId].question, polls[pollId].createdAt, OrderedOptions(pollId)))
    }

    /**
     * `getPollResults`: the poll's vote total and, for each option in the
     * order `getPoll` gives, its own vote count and rounded percentage; or
     * `null`.
     */
    function GetPollResults(pollId: Id): (r: Option<PollResults>)
      reads this
      ensures r.None? <==> pollId !in polls
      ensures r.Some? ==>
        && r.value.id == pollId
        && r.value.question == polls[pollId].question
        && r.value.createdAt == polls[pollId].createdAt
      ensures r.Some? ==> r.value.totalVotes == PollVoteCount(votes, pollId)
      ensures r.Some? ==>
        var rows := GetPoll(pollId).value.options;
        && |r.value.options| == |rows|
        && forall i :: 0 <= i < |rows| ==>
             && r.value.options[i].id == rows[i].id
             && r.value.options[i].text == rows[i].text
             && r.value.options[i].position == rows[i].position
             && r.value.options[i].votes == OptionVoteCount(votes, rows[i].id)
      ensures r.Some? && r.value.totalVotes == 0 ==>
        forall i :: 0 <= i < |r.value.options| ==> r.value.options[i].percentage == 0
      ensures r.Some? && r.value.totalVotes > 0 ==>
        forall i :: 0 <= i < |r.value.options| ==>
          r.value.options[i].percentage == RoundedPercentage(r.value.options[i].votes, r.value.totalVotes)
    {
      if pollId !in polls then None
      else
        var total := PollVoteCount(votes, pollId);
        Some(PollResults(pollId, polls[pollId].question, polls[pollId].createdAt, total,
                         OptionResults(OrderedOptions(pollId), votes, total)))
    }

    /**
     * The `createPoll` handler: insert the poll and one option row per option
     * of the validated payload, `position` its index, in one step. `pollId`,
     * `optionIds` and `createdAt` are what the database generates for the new
     * rows; `storageFails` stands for any failure of the insert, which leaves
     * the tables as they were and yields no id.
     */
    method InsertPoll(valid: PollInput, pollId: Id, optionIds: seq<Id>, createdAt: int, storageFails: bool)
      returns (r: Option<Id>)
      requires Valid()
      requires Normalized(valid) && MinOptions <= |valid.options| <= MaxOptions
      requires pollId !in polls
      requires |optionIds| == |valid.options| && FreshOptionIds(options, optionIds)
      modifies this
      ensures Valid()
      ensures votes == old(votes)
      ensures storageFails ==> r == None && polls == old(polls) && options == old(options)
      ensures !storageFails ==>
                && r == Some(pollId)
                && polls == old(polls)[pollId := PollRow(valid.question, createdAt)]
                && options == old(options) + NewOptionRows(pollId, optionIds, valid.options)
                && OptionsOf(options, pollId) == NewOptionRows(pollId, optionIds, valid.options)
    {
      if storageFails {
        return None;
      }
      var added := NewOptionRows(pollId, optionIds, valid.options);
      var row := PollRow(valid.question, createdAt);
      AddPollKeepsInvariants(polls, options, votes, valid, pollId, optionIds, createdAt);
      polls, options := polls[pollId := row], options + added;
      r := Some(pollId);
    }

    /**
     * `createPoll`: the input validator, then the handler on what it
     * returns. A refused input and a failed insert change nothing.
     */
    method CreatePoll(data: PollInput, pollId: Id, optionIds: seq<Id>, createdAt: int, storageFails: bool)
      returns (r: Result<Id, CreatePollError>)
      requires Valid()
      requires pollId !in polls
      requires |optionIds| == |data.options| && FreshOptionIds(options, optionIds)
      modifies this
      ensures Valid()
      ensures votes == old(votes)
      ensures ValidateCreatePoll(data).Failure? ==>
                r == Failure(InvalidInput(ValidateCreatePoll(data).error))
                && polls == old(polls) && options == old(options)
      ensures ValidateCreatePoll(data).Success? && storageFails ==>
                r == Failure(CreateStorageError) && polls == old(polls) && options == old(options)
      ensures ValidateCreatePoll(data).Success? && !storageFails ==>
                var valid := ValidateCreatePoll(data).value;
                && r == Success(pollId)
                && polls == old(polls)[pollId := PollRow(valid.question, createdAt)]
                && options == old(options) + NewOptionRows(pollId, optionIds, valid.options)
      ensures r.Success? ==>
                GetPoll(pollId) == Some(PollView(pollId, Trim(data.question), createdAt,
                                                 NewOptionRows(pollId, optionIds, ValidateCreatePoll(data).value.options)))
    {
      var validated := ValidateCreatePoll(data);
      if validated.Failure? {
        return Failure(InvalidInput(validated.error));
      }
      ValidatedIsNormalized(data);
      var inserted := InsertPoll(validated.value, pollId, optionIds, createdAt, storageFails);
      if inserted.None? {
        return Failure(CreateStorageError);
      }
      r := Success(inserted.value);
      StoredPollReadsBack(this, pollId);
    }

    /**
     * The database's insert into the votes table, with its unique constraint
     * on (pollId, voterToken). `storageFails` stands for any other failure of
     * the database (connection, timeout, another constraint).
     */
    method InsertVote(v: VoteRow, storageFails: bool) returns (outcome: InsertOutcome)
      modifies this`votes
      ensures storageFails ==> outcome == OtherError && votes == old(votes)
      ensures !storageFails && HasVote(old(votes), v.pollId, v.voterToken) ==>
                outcome == Duplicate && votes == old(votes)
      ensures !storageFails && !HasVote(old(votes), v.pollId, v.voterToken) ==>
                outcome == Inserted && votes == old(votes) + [v]
      ensures OneVotePerToken(old(votes)) ==> OneVotePerToken(votes)
    {
      if storageFails {
        return OtherError;
      }
      if HasVote(votes, v.pollId, v.voterToken) {
        return Duplicate;
      }
      if OneVotePerToken(votes) {
        AppendKeepsOneVotePerToken(votes, v);
      }
      votes := votes + [v];
      outcome := Inserted;
    }

    /**
     * `castVote`: an option that is not an option of `pollId` is refused
     * before anything else; otherwise the vote is inserted, a duplicate is
     * reported as "already voted", and any other failure propagates.
     * `lookupFails` stands for a failure of the option lookup, which is
     * outside the `try` and so propagates too.
     */
    method CastVote(pollId: Id, optionId: Id, voterToken: string, lookupFails: bool, storageFails: bool)
      returns (r: CastVoteResult)
      requires Valid()
      modifies this
      ensures Valid()
      ensures polls == old(polls) && options == old(options)
      ensures lookupFails ==> r == StorageError && votes == old(votes)
      ensures !lookupFails && !HasOption(options, pollId, optionId) ==>
                r == Rejected(InvalidOption) && votes == old(votes)
      ensures !lookupFails && HasOption(options, pollId, optionId) && storageFails ==>
                r == StorageError && votes == old(votes)
      ensures && !lookupFails && HasOption(options, pollId, optionId) && !storageFails
              && HasVote(old(votes), pollId, voterToken) ==>
                r == Rejected(AlreadyVoted) && votes == old(votes)
      ensures && !lookupFails && HasOption(options, pollId, optionId) && !storageFails
              && !HasVote(old(votes), pollId, voterToken) ==>
                r == Voted && votes == old(votes) + [VoteRow(pollId, optionId, voterToken)]
    {
      if lookupFails {
        return StorageError;
      }
      var option := FindOption(options, optionId, pollId);
      if option.None? {
        return Rejected(InvalidOption);
      }
      var outcome := InsertVote(VoteRow(pollId, optionId, voterToken), storageFails);
      match outcome
      case Inserted => r := Voted;
      case Duplicate => r := Rejected(AlreadyVoted);
      case OtherError => r := StorageError;
    }
  }

  /** Under the invariants, a vote names poll `pollId` exactly when it names one of that poll's options. */
  lemma VoteBelongsToPollOfItsOption(s: Store, pollId: Id, v: VoteRow)
    requires s.Valid() && v in s.votes
    ensures v.pollId == pollId <==> exists o :: o in OptionsOf(s.options, pollId) && o.id == v.optionId
  {
    var own :| own in s.options && own.id == v.optionId && own.pollId == v.pollId;
    if o :| o in OptionsOf(s.options, pollId) && o.id == v.optionId {
      SameIdSameRow(s.options, own, o);
    }
  }

  /** A valid store keeps each poll's options in position order, so sorting them changes nothing. */
  lemma OrderedOptionsAreStored(s: Store, pollId: Id)
    requires s.Valid() && pollId in s.polls
    ensures s.OrderedOptions(pollId) == OptionsOf(s.options, pollId)
  {
    SortSortedIsIdentity(OptionsOf(s.options, pollId));
  }

  /** `getPoll` on a stored poll of a valid store returns its option rows exactly as stored. */
  lemma StoredPollReadsBack(s: Store, pollId: Id)
    requires s.Valid() && pollId in s.polls
    ensures s.GetPoll(pollId) == Some(PollView(pollId, s.polls[pollId].question, s.polls[pollId].createdAt,
                                               OptionsOf(s.options, pollId)))
    ensures PositionsInOrder(s.GetPoll(pollId).value.options)
  {
    OrderedOptionsAreStored(s, pollId);
  }

  /** What `getPoll` returns from a valid store has a trimmed, non-empty question and option texts. */
  lemma StoredTextsAreTrimmed(s: Store, pollId: Id)
    requires s.Valid() && pollId in s.polls
    ensures s.GetPoll(pollId).Some?
    ensures IsTrimmed(s.GetPoll(pollId).value.question) && s.GetPoll(pollId).value.question != []
    ensures forall o :: o in s.GetPoll(pollId).value.options ==> IsTrimmed(o.text) && o.text != []
  {
    StoredPollReadsBack(s, pollId);
  }

  /** The example's option rows, stored out of position order, and its four votes. */
  const Soup := OptionRow("b", "p", "Soup", 1)
  const Pizza := OptionRow("c", "p", "Pizza", 2)
  const Salad := OptionRow("a", "p", "Salad", 0)
  const ExampleOptions := [Soup, Pizza, Salad]
  const ExampleVotes := [VoteRow("p", "a", "t1"), VoteRow("p", "b", "t2"), VoteRow("p", "a", "t3"), VoteRow("p", "a", "t4")]

  /** `orderBy position asc` on the example's rows. */
  lemma ExampleOrder()
    ensures SortByPosition(ExampleOptions) == [Salad, Soup, Pizza]
  {
    ExampleOrderTail();
    ExampleInsertSoup();
    assert ExampleOptions == [Soup] + [Pizza, Salad];
  }

  /** The last two example rows, sorted. */
  lemma ExampleOrderTail()
    ensures SortByPosition([Pizza, Salad]) == [Salad, Pizza]
  {
    assert [Pizza, Salad][1..] == [Salad];
    assert SortByPosition([Salad]) == [Salad];
  }

  /** The first example row, inserted among the other two. */
  lemma ExampleInsertSoup()
    ensures InsertByPosition(Soup, [Salad, Pizza]) == [Salad, Soup, Pizza]
  {
    assert [Salad, Pizza][1..] == [Pizza];
    assert InsertByPosition(Soup, [Pizza]) == [Soup, Pizza];
  }

  /** The example's vote counts: 4 in all, split 3, 1 and 0. */
  lemma ExampleCounts()
    ensures PollVoteCount(ExampleVotes, "p") == 4
    ensures OptionVoteCount(ExampleVotes, "a") == 3
    ensures OptionVoteCount(ExampleVotes, "b") == 1
    ensures OptionVoteCount(ExampleVotes, "c") == 0
  {
    var v0, v1, v2, v3 := ExampleVotes[0], ExampleVotes[1], ExampleVotes[2], ExampleVotes[3];
    assert "b"[0] != "a"[0] && "c"[0] != "a"[0] && "c"[0] != "b"[0];
    CountOfFour(v0, v1, v2, v3, ByPoll("p"));
    CountOfFour(v0, v1, v2, v3, ByOption("a"));
    CountOfFour(v0, v1, v2, v3, ByOption("b"));
    CountOfFour(v0, v1, v2, v3, ByOption("c"));
  }

  /**
   * A poll with three options, stored out of position order, and four votes
   * split 3, 1 and 0: `getPollResults` lists the options by position with
   * 75%, 25% and 0%.
   */
  lemma ResultsExample(s: Store)
    requires s.polls == map["p" := PollRow("Lunch?", 0)]
    requires s.options == ExampleOptions && s.votes == ExampleVotes
    ensures s.GetPollResults("p").Some?
    ensures s.GetPollResults("p").value.totalVotes == 4
    ensures |s.GetPollResults("p").value.options| == 3
    ensures s.GetPollResults("p").value.options[0] == OptionResult("a", "Salad", 0, 3, 75)
    ensures s.GetPollResults("p").value.options[1] == OptionResult("b", "Soup", 1, 1, 25)
    ensures s.GetPollResults("p").value.options[2] == OptionResult("c", "Pizza", 2, 0, 0)
  {
    var rows := [Salad, Soup, Pizza];
    assert s.OrderedOptions("p") == rows by {
      OptionsOfAll(ExampleOptions, "p");
      ExampleOrder();
    }
    assert s.GetPollResults("p") == Some(PollResults("p", "Lunch?", 0, 4, OptionResults(rows, ExampleVotes, 4))) by {
      ExampleCounts();
    }
    ExampleCounts();
    PercentageExample();
  }

  /** The count over four votes, one vote at a time. */
  lemma CountOfFour(v0: VoteRow, v1: VoteRow, v2: VoteRow, v3: VoteRow, key: VoteKey)
    ensures VoteCount([v0, v1, v2, v3], key) ==
              (if Names(v0, key) then 1 else 0) + (if Names(v1, key) then 1 else 0)
              + (if Names(v2, key) then 1 else 0) + (if Names(v3, key) then 1 else 0)
  {
    VoteCountSnoc([], v0, key);
    assert [] + [v0] == [v0];
    VoteCountSnoc([v0], v1, key);
    assert [v0] + [v1] == [v0, v1];
    VoteCountSnoc([v0, v1], v2, key);
    assert [v0, v1] + [v2] == [v0, v1, v2];
    VoteCountSnoc([v0, v1, v2], v3, key);
    assert [v0, v1, v2] + [v3] == [v0, v1, v2, v3];
  }

  /** In the results of a valid store the per-option vote counts add up to `totalVotes`. */
  lemma ResultsVotesAddUp(s: Store, pollId: Id)
    requires s.Valid() && pollId in s.polls
    ensures s.GetPollResults(pollId).Some?
    ensures SumVotes(s.GetPollResults(pollId).value.options) == s.GetPollResults(pollId).value.totalVotes
  {
    var rows := OptionsOf(s.options, pollId);
    OrderedOptionsAreStored(s, pollId);
    OptionsOfDistinct(s.options, pollId);
    forall v | v in s.votes
      ensures v.pollId == pollId <==> exists o :: o in rows && o.id == v.optionId
    {
      VoteBelongsToPollOfItsOption(s, pollId, v);
    }
    CountsAddUp(rows, s.votes, pollId);
    SumVotesOfResults(rows, s.votes, PollVoteCount(s.votes, pollId));
  }

  /** In the results of a valid store every percentage lies in 0..100. */
  lemma PercentagesInRange(s: Store, pollId: Id)
    requires s.Valid() && pollId in s.polls
    ensures s.GetPollResults(pollId).Some?
    ensures forall res :: res in s.GetPollResults(pollId).value.options ==> res.percentage <= 100
  {
    var rows := OptionsOf(s.options, pollId);
    var r := s.GetPollResults(pollId).value;
    OrderedOptionsAreStored(s, pollId);
    forall i | 0 <= i < |rows|
      ensures r.options[i].votes <= r.totalVotes
    {
      forall v | v in s.votes && v.optionId == rows[i].id
        ensures v.pollId == pollId
      {
        VoteBelongsToPollOfItsOption(s, pollId, v);
      }
      OptionCountAtMostPollCount(s.votes, rows[i].id, pollId);
    }
  }

  /**
   * Two votes with the same token on one poll, one after the other and for
   * any two of its options: the first is accepted, the second is refused as a
   * duplicate, and exactly one vote is stored.
   */
  method SameTokenCountsOnce(s: Store, pollId: Id, first: Id, second: Id, voterToken: string)
    returns (r1: CastVoteResult, r2: CastVoteResult)
    requires s.Valid()
    requires HasOption(s.options, pollId, first) && HasOption(s.options, pollId, second)
    requires !HasVote(s.votes, pollId, voterToken)
    modifies s
    ensures s.Valid()
    ensures r1 == Voted && r2 == Rejected(AlreadyVoted)
    ensures s.votes == old(s.votes) + [VoteRow(pollId, first, voterToken)]
  {
    r1 := s.CastVote(pollId, first, voterToken, false, false);
    assert VoteRow(pollId, first, voterToken) in s.votes;
    r2 := s.CastVote(pollId, second, voterToken, false, false);
  }
}
