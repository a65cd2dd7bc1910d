/**
 * The three tables of the poll database (polls, poll options, votes) as
 * values, and the queries `polls.ts` runs against them: the options of one
 * poll ordered by position, `findFirst` on an option, and the vote counts and
 * percentages of `getPollResults`.
 */
module PollTables {
  import opened Wrappers

  /** Poll and option ids are opaque strings generated by the database. */
  type Id = string

  datatype PollRow = PollRow(question: string, createdAt: int)
  datatype OptionRow = OptionRow(id: Id, pollId: Id, text: string, position: int)
  datatype VoteRow = VoteRow(pollId: Id, optionId: Id, voterToken: string)

  // ---------------------------------------------------------------------------
  // Options of one poll

  /** The rows of `rows` that belong to poll `pollId`, in table order. */
  function OptionsOf(rows: seq<OptionRow>, pollId: Id): (r: seq<OptionRow>)
    ensures |r| <= |rows|
    ensures forall o :: o in r ==> o in rows && o.pollId == pollId
    ensures forall o :: o in rows && o.pollId == pollId ==> o in r
  {
    if rows == [] then []
    else
      var last := rows[|rows| - 1];
      OptionsOf(rows[..|rows| - 1], pollId) + (if last.pollId == pollId then [last] else [])
  }

  lemma {:induction false} OptionsOfAppend(a: seq<OptionRow>, b: seq<OptionRow>, pollId: Id)
    ensures OptionsOf(a + b, pollId) == OptionsOf(a, pollId) + OptionsOf(b, pollId)
  {
    if b == [] {
      assert a + b == a;
    } else {
      var last := b[|b| - 1];
      var extra := if last.pollId == pollId then [last] else [];
      assert (a + b)[|a + b| - 1] == last;
      assert (a + b)[..|a + b| - 1] == a + b[..|b| - 1];
      assert OptionsOf(a + b, pollId) == OptionsOf(a + b[..|b| - 1], pollId) + extra;
      OptionsOfAppend(a, b[..|b| - 1], pollId);
      assert OptionsOf(b, pollId) == OptionsOf(b[..|b| - 1], pollId) + extra;
    }
  }

  /** A poll none of whose rows are in `rows` has no options there. */
  lemma OptionsOfNone(rows: seq<OptionRow>, pollId: Id)
    requires forall o :: o in rows ==> o.pollId != pollId
    ensures OptionsOf(rows, pollId) == []
  {
  }

  lemma {:induction false} OptionsOfAll(rows: seq<OptionRow>, pollId: Id)
    requires forall o :: o in rows ==> o.pollId == pollId
    ensures OptionsOf(rows, pollId) == rows
  {
    if rows != [] {
      var init, last := rows[..|rows| - 1], rows[|rows| - 1];
      assert last in rows;
      OptionsOfAll(init, pollId);
      assert OptionsOf(rows, pollId) == init + [last];
      assert rows == init + [last];
    }
  }

  /** True when no two rows share an id (the primary key of the options table). */
  predicate DistinctIds(rows: seq<OptionRow>)
  {
    forall i, j :: 0 <= i < j < |rows| ==> rows[i].id != rows[j].id
  }

  /** Under distinct ids a row is determined by its id. */
  lemma SameIdSameRow(rows: seq<OptionRow>, a: OptionRow, b: OptionRow)
    requires DistinctIds(rows) && a in rows && b in rows && a.id == b.id
    ensures a == b
  {
    var i :| 0 <= i < |rows| && rows[i] == a;
    var j :| 0 <= j < |rows| && rows[j] == b;
    assert !(i < j) && !(j < i);
  }

  lemma {:induction false} OptionsOfDistinct(rows: seq<OptionRow>, pollId: Id)
    requires DistinctIds(rows)
    ensures DistinctIds(OptionsOf(rows, pollId))
  {
    if rows != [] {
      var init := rows[..|rows| - 1];
      var last := rows[|rows| - 1];
      OptionsOfDistinct(init, pollId);
      var front := OptionsOf(init, pollId);
      forall o | o in front ensures o.id != last.id {
        var k :| 0 <= k < |init| && init[k] == o;
        assert rows[k] == o;
      }
    }
  }

  /** True when the positions of `rows` are exactly 0, 1, ..., |rows| - 1 in that order. */
  predicate PositionsInOrder(rows: seq<OptionRow>)
  {
    forall i :: 0 <= i < |rows| ==> rows[i].position == i
  }

  /**
   * The option rows the `createPoll` handler inserts for a new poll: one row
   * per text, `position` the index of the text.
   */
  function NewOptionRows(pollId: Id, ids: seq<Id>, texts: seq<string>): (r: seq<OptionRow>)
    requires |ids| == |texts|
    ensures |r| == |texts|
    ensures PositionsInOrder(r)
    ensures forall i :: 0 <= i < |r| ==> r[i].id == ids[i] && r[i].pollId == pollId && r[i].text == texts[i]
  {
    seq(|texts|, i requires 0 <= i < |texts| => OptionRow(ids[i], pollId, texts[i], i))
  }

  // ---------------------------------------------------------------------------
  // ORDER BY position ASC

  predicate SortedByPosition(rows: seq<OptionRow>)
  {
    forall i, j :: 0 <= i < j < |rows| ==> rows[i].position <= rows[j].position
  }

  /** Puts `o` before the first row of the sorted `rows` whose position is not smaller. */
  function InsertByPosition(o: OptionRow, rows: seq<OptionRow>): (r: seq<OptionRow>)
    requires SortedByPosition(rows)
    ensures SortedByPosition(r)
    ensures multiset(r) == multiset(rows) + multiset{o}
  {
    if rows == [] || o.position <= rows[0].position then [o] + rows
    else
      var tail := InsertByPosition(o, rows[1..]);
      assert rows == [rows[0]] + rows[1..];
      InsertedRowsFollowHead(o, rows, tail);
      PrependKeepsSorted(rows[0], tail);
      [rows[0]] + tail
  }

  /** After the head of sorted `rows`, every row of `tail` (the rest of `rows` plus `o`) is no smaller. */
  lemma InsertedRowsFollowHead(o: OptionRow, rows: seq<OptionRow>, tail: seq<OptionRow>)
    requires SortedByPosition(rows) && rows != [] && rows[0].position < o.position
    requires multiset(tail) == multiset(rows[1..]) + multiset{o}
    ensures forall x :: x in tail ==> rows[0].position <= x.position
  {
    forall x | x in tail ensures rows[0].position <= x.position {
      assert x in multiset(tail);
      if x != o {
        var k :| 0 <= k < |rows[1..]| && rows[1..][k] == x;
        assert rows[k + 1] == x;
      }
    }
  }

  lemma PrependKeepsSorted(x: OptionRow, tail: seq<OptionRow>)
    requires SortedByPosition(tail)
    requires forall y :: y in tail ==> x.position <= y.position
    ensures SortedByPosition([x] + tail)
  {
    var r := [x] + tail;
    forall i, j | 0 <= i < j < |r| ensures r[i].position <= r[j].position {
      assert r[j] == tail[j - 1] && r[j] in tail;
      if i > 0 {
        assert r[i] == tail[i - 1];
      }
    }
  }

  /** The rows reordered by ascending position. */
  function SortByPosition(rows: seq<OptionRow>): (r: seq<OptionRow>)
    ensures SortedByPosition(r)
    ensures multiset(r) == multiset(rows)
  {
    if rows == [] then []
    else
      assert rows == [rows[0]] + rows[1..];
      InsertByPosition(rows[0], SortByPosition(rows[1..]))
  }

  /** Rows already in position order come back as they are. */
  lemma {:induction false} SortSortedIsIdentity(rows: seq<OptionRow>)
    requires SortedByPosition(rows)
    ensures SortByPosition(rows) == rows
  {
    if rows != [] {
      SortSortedIsIdentity(rows[1..]);
    }
  }

  // ---------------------------------------------------------------------------
  // findFirst on an option

  /** True when some row has id `optionId` and belongs to poll `pollId`. */
  predicate HasOption(rows: seq<OptionRow>, pollId: Id, optionId: Id)
  {
    exists o :: o in rows && o.id == optionId && o.pollId == pollId
  }

  /** `findFirst({ where: { id: optionId, pollId } })`: the first matching row, if any. */
  function FindOption(rows: seq<OptionRow>, optionId: Id, pollId: Id): (r: Option<OptionRow>)
    ensures r.None? <==> !HasOption(rows, pollId, optionId)
    ensures r.Some? ==> r.value in rows && r.value.id == optionId && r.value.pollId == pollId
  {
    if rows == [] then None
    else if rows[0].id == optionId && rows[0].pollId == pollId then Some(rows[0])
    else
      assert forall o :: o in rows ==> o == rows[0] || o in rows[1..];
      FindOption(rows[1..], optionId, pollId)
  }

  // ---------------------------------------------------------------------------
  // Votes

  /** True when a vote for poll `pollId` carrying `voterToken` is stored. */
  predicate HasVote(votes: seq<VoteRow>, pollId: Id, voterToken: string)
  {
    exists v :: v in votes && v.pollId == pollId && v.voterToken == voterToken
  }

  /** The unique constraint on (pollId, voterToken): no two votes share both. */
  predicate OneVotePerToken(votes: seq<VoteRow>)
  {
    forall i, j :: 0 <= i < j < |votes| ==>
      votes[i].pollId != votes[j].pollId || votes[i].voterToken != votes[j].voterToken
  }

  lemma AppendKeepsOneVotePerToken(votes: seq<VoteRow>, v: VoteRow)
    requires OneVotePerToken(votes)
    requires !HasVote(votes, v.pollId, v.voterToken)
    ensures OneVotePerToken(votes + [v])
  {
    forall i, j | 0 <= i < j < |votes + [v]|
      ensures (votes + [v])[i].pollId != (votes + [v])[j].pollId
           || (votes + [v])[i].voterToken != (votes + [v])[j].voterToken
    {
      if j == |votes| {
        assert votes[i] in votes;
      }
    }
  }

  /** What a vote count selects on: the votes of one poll, or the votes of one option. */
  datatype VoteKey = ByPoll(pollId: Id) | ByOption(optionId: Id)

  predicate Names(v: VoteRow, key: VoteKey)
  {
    match key
    case ByPoll(pollId) => v.pollId == pollId
    case ByOption(optionId) => v.optionId == optionId
  }

  /** `_count: { select: { votes: true } }`: how many votes `key` selects. */
  function VoteCount(votes: seq<VoteRow>, key: VoteKey): (n: nat)
    ensures n <= |votes|
    ensures n == 0 <==> forall v :: v in votes ==> !Names(v, key)
  {
    if votes == [] then 0
    else
      var init := votes[..|votes| - 1];
      var last := votes[|votes| - 1];
      assert votes == init + [last];
      VoteCount(init, key) + (if Names(last, key) then 1 else 0)
  }

  /** Appending a vote adds one to the count of every key that selects it. */
  lemma VoteCountSnoc(votes: seq<VoteRow>, v: VoteRow, key: VoteKey)
    ensures VoteCount(votes + [v], key) == VoteCount(votes, key) + (if Names(v, key) then 1 else 0)
  {
    assert (votes + [v])[..|votes|] == votes;
  }

  /** The positions in the votes table of the rows `key` selects. */
  function MatchingRows(votes: seq<VoteRow>, key: VoteKey): set<int>
  {
    set i: int | 0 <= i < |votes| && Names(votes[i], key)
  }

  /** A vote count is the number of vote rows it selects. */
  lemma {:induction false} VoteCountIsMatchingRows(votes: seq<VoteRow>, key: VoteKey)
    ensures VoteCount(votes, key) == |MatchingRows(votes, key)|
  {
    if votes != [] {
      var init := votes[..|votes| - 1];
      VoteCountIsMatchingRows(init, key);
      MatchingRowsSnoc(votes, key);
    }
  }

  /** The rows the last vote adds to those of the others. */
  lemma MatchingRowsSnoc(votes: seq<VoteRow>, key: VoteKey)
    requires votes != []
    ensures var last := |votes| - 1;
            var before := MatchingRows(votes[..last], key);
            && last !in before
            && MatchingRows(votes, key) == before + (if Names(votes[last], key) then {last} else {})
  {
    var last := |votes| - 1;
    var init := votes[..last];
    forall i | 0 <= i < last ensures init[i] == votes[i] {
    }
  }

  /** `poll._count.votes`: how many votes name poll `pollId`. */
  function PollVoteCount(votes: seq<VoteRow>, pollId: Id): nat
  {
    VoteCount(votes, ByPoll(pollId))
  }

  /** `option._count.votes`: how many votes name option `optionId`. */
  function OptionVoteCount(votes: seq<VoteRow>, optionId: Id): nat
  {
    VoteCount(votes, ByOption(optionId))
  }

  /** When every vote for an option is a vote for poll `pollId`, the option's count is at most the poll's. */
  lemma {:induction false} OptionCountAtMostPollCount(votes: seq<VoteRow>, optionId: Id, pollId: Id)
    requires forall v :: v in votes && v.optionId == optionId ==> v.pollId == pollId
    ensures OptionVoteCount(votes, optionId) <= PollVoteCount(votes, pollId)
  {
    if votes != [] {
      var init := votes[..|votes| - 1];
      assert forall v :: v in init ==> v in votes;
      OptionCountAtMostPollCount(init, optionId, pollId);
    }
  }

  /** The per-option counts of `rows`, added up. */
  function SumOptionCounts(rows: seq<OptionRow>, votes: seq<VoteRow>): nat
  {
    if rows == [] then 0 else OptionVoteCount(votes, rows[0].id) + SumOptionCounts(rows[1..], votes)
  }

  /** How many rows of `rows` have id `optionId`. */
  function IdHits(rows: seq<OptionRow>, optionId: Id): nat
  {
    if rows == [] then 0 else (if rows[0].id == optionId then 1 else 0) + IdHits(rows[1..], optionId)
  }

  lemma {:induction false} IdHitsDistinct(rows: seq<OptionRow>, optionId: Id)
    requires DistinctIds(rows)
    ensures IdHits(rows, optionId) == if exists o :: o in rows && o.id == optionId then 1 else 0
  {
    if rows != [] {
      IdHitsDistinct(rows[1..], optionId);
      assert forall o :: o in rows ==> o == rows[0] || o in rows[1..];
      if rows[0].id == optionId {
        assert forall o :: o in rows[1..] ==> o.id != optionId by {
          forall o | o in rows[1..] ensures o.id != optionId {
            var k :| 0 <= k < |rows[1..]| && rows[1..][k] == o;
            assert rows[k + 1] == o;
          }
        }
      }
    }
  }

  /** Removing the last vote takes one away from exactly the options it names. */
  lemma {:induction false} SumOptionCountsSnoc(rows: seq<OptionRow>, votes: seq<VoteRow>, v: VoteRow)
    ensures SumOptionCounts(rows, votes + [v]) == SumOptionCounts(rows, votes) + IdHits(rows, v.optionId)
  {
    if rows != [] {
      assert (votes + [v])[..|votes + [v]| - 1] == votes;
      SumOptionCountsSnoc(rows[1..], votes, v);
    }
  }

  /**
   * The per-option counts of a poll's options add up to the poll's count,
   * provided the option ids are distinct and a vote names the poll exactly
   * when it names one of these options.
   */
  lemma {:induction false} CountsAddUp(rows: seq<OptionRow>, votes: seq<VoteRow>, pollId: Id)
    requires DistinctIds(rows)
    requires forall v :: v in votes ==> (v.pollId == pollId <==> exists o :: o in rows && o.id == v.optionId)
    ensures SumOptionCounts(rows, votes) == PollVoteCount(votes, pollId)
  {
    if votes == [] {
      ZeroCounts(rows);
    } else {
      var init := votes[..|votes| - 1];
      var last := votes[|votes| - 1];
      assert votes == init + [last];
      assert forall v :: v in init ==> v in votes;
      CountsAddUp(rows, init, pollId);
      SumOptionCountsSnoc(rows, init, last);
      IdHitsDistinct(rows, last.optionId);
    }
  }

  lemma {:induction false} ZeroCounts(rows: seq<OptionRow>)
    ensures SumOptionCounts(rows, []) == 0
  {
    if rows != [] {
      ZeroCounts(rows[1..]);
    }
  }

  // ---------------------------------------------------------------------------
  // Percentages

  /**
   * `Math.round(votes / totalVotes * 100)` in exact arithmetic: the integer
   * nearest to 100 * votes / total, a half rounded up.
   */
  function RoundedPercentage(votes: nat, total: nat): (r: nat)
    requires total > 0
    ensures (2 * r - 1) * total <= 200 * votes < (2 * r + 1) * total
    ensures votes <= total ==> r <= 100
  {
    var q := (200 * votes + total) / (2 * total);
    RoundingBounds(votes, total, q);
    q
  }

  /** Four votes split 3, 1 and 0 show as 75%, 25% and 0%. */
  lemma PercentageExample()
    ensures RoundedPercentage(3, 4) == 75 && RoundedPercentage(1, 4) == 25 && RoundedPercentage(0, 4) == 0
  {
  }

  lemma RoundingBounds(votes: nat, total: nat, q: nat)
    requires total > 0 && q == (200 * votes + total) / (2 * total)
    ensures (2 * q - 1) * total <= 200 * votes < (2 * q + 1) * total
    ensures votes <= total ==> q <= 100
  {
    RoundHalfUpBounds(200 * votes + total, 2 * total, q);
    assert q * (2 * total) == 2 * (q * total);
    if votes <= total && q > 100 {
      MulAtLeast(q, 101, total);
      assert false;
    }
  }

  lemma RoundHalfUpBounds(n: nat, d: nat, q: nat)
    requires d > 0 && q == n / d
    ensures q * d <= n < q * d + d
  {
  }

  lemma MulAtLeast(a: nat, b: nat, c: nat)
    requires a >= b
    ensures a * c >= b * c
  {
  }
}
