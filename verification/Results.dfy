/** Winner, tie and competition ranks of the election result. Rows come ordered by falling vote count. */
module Results {
  import opened Common

  datatype Row = Row(id: Id, name: string, votes: nat)

  datatype Outcome = Outcome(winner: Option<Id>, winnerName: string, isTie: bool, tied: seq<Row>)

  ghost predicate Descending(rows: seq<Row>) {
    forall i, j :: 0 <= i <= j < |rows| ==> rows[i].votes >= rows[j].votes
  }

  /** The largest vote count, found without relying on the order. */
  function Highest(rows: seq<Row>): (h: nat)
    ensures forall i :: 0 <= i < |rows| ==> rows[i].votes <= h
    ensures rows != [] ==> exists i :: 0 <= i < |rows| && rows[i].votes == h
  {
    if rows == [] then 0
    else
      var last := |rows| - 1;
      var h := Highest(rows[..last]);
      assert forall i :: 0 <= i < last ==> rows[i] == rows[..last][i];
      if rows[last].votes >= h then assert rows[last].votes == rows[last].votes; rows[last].votes else h
  }

  function WithVotes(rows: seq<Row>, votes: nat): seq<Row> {
    if rows == [] then []
    else
      var last := |rows| - 1;
      WithVotes(rows[..last], votes) + if rows[last].votes == votes then [rows[last]] else []
  }

  /** The rows nobody has more votes than. */
  function Leaders(rows: seq<Row>): seq<Row> { WithVotes(rows, Highest(rows)) }

  lemma {:induction false} WithVotesAre(rows: seq<Row>, votes: nat, row: Row)
    ensures row in WithVotes(rows, votes) <==> row in rows && row.votes == votes
  {
    if rows != [] {
      var last := |rows| - 1;
      WithVotesAre(rows[..last], votes, row);
      assert rows == rows[..last] + [rows[last]];
    }
  }

  /** Leaders are exactly the rows with no row above them. */
  lemma LeadersAreUnbeaten(rows: seq<Row>, row: Row)
    ensures row in Leaders(rows) <==> row in rows && forall other :: other in rows ==> other.votes <= row.votes
  {
    WithVotesAre(rows, Highest(rows), row);
    if row in rows && forall other :: other in rows ==> other.votes <= row.votes {
      var i :| 0 <= i < |rows| && rows[i].votes == Highest(rows);
      assert rows[i] in rows;
    }
  }

  lemma {:induction false} HighestIsFirst(rows: seq<Row>)
    requires rows != [] && Descending(rows)
    ensures Highest(rows) == rows[0].votes
  {
  }

  lemma {:induction false} WithVotesGrows(rows: seq<Row>, i: nat, votes: nat)
    requires i < |rows|
    ensures WithVotes(rows[..i + 1], votes) == WithVotes(rows[..i], votes) + if rows[i].votes == votes then [rows[i]]
      else []
  {
    assert rows[..i + 1][..i] == rows[..i];
  }

  /**
   With a positive maximum: a winner exactly when one row leads alone, a tie exactly when several
   lead, and the tied rows are the leaders. Without votes the first row is named all the same.
   */
  method ElectionOutcome(rows: seq<Row>, totalVotes: nat) returns (outcome: Outcome, percentages: seq<real>)
    requires Descending(rows)
    ensures ArePercentages(percentages, rows, totalVotes)
    ensures rows == [] ==> outcome == Outcome(None, "", false, [])
    ensures rows != [] && Highest(rows) == 0 ==> outcome == Outcome(Some(rows[0].id), rows[0].name, false, [])
    ensures Highest(rows) > 0 ==> (outcome.winner.Some? <==> |Leaders(rows)| == 1)
    ensures Highest(rows) > 0 ==> (outcome.isTie <==> |Leaders(rows)| > 1)
    ensures Highest(rows) > 0 && outcome.winner.Some? ==>
      outcome.winner.value == Leaders(rows)[0].id && outcome.winnerName == Leaders(rows)[0].name
    ensures Highest(rows) > 0 ==> outcome.tied == (if |Leaders(rows)| > 1 then Leaders(rows) else [])
  {
    var highestVotes := 0;
    var winner: Option<Id> := None;
    var winnerName := "";
    var isTie := false;
    var tied: seq<Row> := [];
    percentages := [];
    for i := 0 to |rows|
      invariant ArePercentages(percentages, rows[..i], totalVotes)
      invariant i == 0 ==> winner == None && winnerName == "" && !isTie && tied == []
      invariant i > 0 ==> highestVotes == rows[0].votes && |tied| > 0 && tied[0] == rows[0]
      invariant i > 0 && highestVotes > 0 ==> tied == WithVotes(rows[..i], highestVotes)
      invariant i > 0 && highestVotes == 0 ==> |tied| == 1
      invariant i > 0 ==> (isTie <==> |tied| > 1)
      invariant i > 0 ==> winner == (if isTie then None else Some(rows[0].id)) && winnerName == if isTie then ""
        else rows[0].name
    {
      var percentage := Percentage(rows[i].votes, totalVotes);
      percentages := percentages + [percentage];
      WithVotesGrows(rows, i, rows[0].votes);
      if i == 0 {
        highestVotes := rows[i].votes;
        winner, winnerName := Some(rows[i].id), rows[i].name;
        tied := tied + [rows[i]];
      } else if rows[i].votes == highestVotes && highestVotes > 0 {
        isTie := true;
        winner, winnerName := None, "";
        tied := tied + [rows[i]];
      }
    }
    assert rows[..|rows|] == rows;
    if rows != [] {
      HighestIsFirst(rows);
    }
    if !isTie {
      tied := [];
    }
    outcome := Outcome(winner, winnerName, isTie, tied);
  }

  // ---- Percentages ----

  /** Each candidate's share of all ballots, those for candidates no longer listed included. */
  predicate ArePercentages(percentages: seq<real>, rows: seq<Row>, totalVotes: nat) {
    |percentages| == |rows| && forall i :: 0 <= i < |rows| ==> IsPercentage(percentages[i], rows[i].votes, totalVotes)
  }

  function Sum(percentages: seq<real>): real {
    if percentages == [] then 0.0 else Sum(percentages[..|percentages| - 1]) + percentages[|percentages| - 1]
  }

  function Votes(rows: seq<Row>): nat { if rows == [] then 0 else Votes(rows[..|rows| - 1]) + rows[|rows| - 1].votes }

  lemma SharesAdd(p: real, q: real, part: nat, other: nat, whole: nat)
    requires IsPercentage(p, part, whole) && IsPercentage(q, other, whole)
    ensures IsPercentage(p + q, part + other, whole)
  {
    assert (p + q) * whole as real == p * whole as real + q * whole as real;
  }

  /** Together the percentages are the share of the ballots cast for listed candidates: 100 when there are no others. */
  lemma {:induction false} PercentagesAddUp(percentages: seq<real>, rows: seq<Row>, totalVotes: nat)
    requires ArePercentages(percentages, rows, totalVotes)
    ensures IsPercentage(Sum(percentages), Votes(rows), totalVotes)
    ensures totalVotes > 0 ==> (Sum(percentages) == 100.0 <==> Votes(rows) == totalVotes)
  {
    if rows != [] {
      var last := |rows| - 1;
      PercentagesAddUp(percentages[..last], rows[..last], totalVotes);
      SharesAdd(Sum(percentages[..last]), percentages[last], Votes(rows[..last]), rows[last].votes, totalVotes);
    }
    if totalVotes > 0 { AllOfIt(Sum(percentages), Votes(rows), totalVotes); }
  }

  lemma AllOfIt(p: real, part: nat, whole: nat)
    requires whole > 0 && IsPercentage(p, part, whole)
    ensures p == 100.0 <==> part == whole
  {
    if part == whole { assert (p - 100.0) * whole as real == 0.0; }
  }

  // ---- Ranks ----

  function Above(rows: seq<Row>, votes: nat): set<int> { set j | 0 <= j < |rows| && rows[j].votes > votes }

  lemma {:induction false} PrefixSize(s: set<int>, n: nat)
    requires forall j :: j in s <==> 0 <= j < n
    ensures |s| == n
  {
    if n == 0 {
      assert forall j :: j !in s;
      assert s == {};
    } else {
      PrefixSize(s - {n - 1}, n - 1);
    }
  }

  /** In falling order the rows above row i are the ones before its first equal. */
  lemma AboveIsPrefix(rows: seq<Row>, first: nat, i: nat)
    requires Descending(rows) && first <= i < |rows|
    requires rows[first].votes == rows[i].votes && (first > 0 ==> rows[first - 1].votes > rows[first].votes)
    ensures |Above(rows, rows[i].votes)| == first
  {
    PrefixSize(Above(rows, rows[i].votes), first);
  }

  /** Competition ranking: a row's rank is one more than the number of rows with more votes. */
  method ExportRanks(rows: seq<Row>) returns (ranks: seq<int>)
    requires Descending(rows)
    ensures |ranks| == |rows|
    ensures forall i :: 0 <= i < |rows| ==> ranks[i] == 1 + |Above(rows, rows[i].votes)|
  {
    ranks := [];
    var rank: int, prevVotes: int := 1, -1;
    for i := 0 to |rows|
      invariant |ranks| == i
      invariant forall k :: 0 <= k < i ==> ranks[k] == 1 + |Above(rows, rows[k].votes)|
      invariant i == 0 ==> rank == 1 && prevVotes == -1
      invariant i > 0 ==> 1 <= rank <= i && prevVotes == rows[i - 1].votes
      invariant i > 0 ==> rows[rank - 1].votes == rows[i - 1].votes
      invariant i > 0 && rank > 1 ==> rows[rank - 2].votes > rows[rank - 1].votes
    {
      if prevVotes != -1 && rows[i].votes < prevVotes {
        rank := i + 1;
      } else if prevVotes == -1 {
        rank := 1;
      }
      AboveIsPrefix(rows, rank - 1, i);
      ranks := ranks + [rank];
      prevVotes := rows[i].votes;
    }
  }

  /** The rows ranked first are the leaders. */
  lemma RankOneLeads(rows: seq<Row>, i: nat)
    requires i < |rows|
    ensures |Above(rows, rows[i].votes)| == 0 <==> rows[i] in Leaders(rows)
  {
    LeadersAreUnbeaten(rows, rows[i]);
    var above := Above(rows, rows[i].votes);
    if rows[i] in Leaders(rows) {
      assert above == {};
    } else {
      var other :| other in rows && other.votes > rows[i].votes;
      var j :| 0 <= j < |rows| && rows[j] == other;
      assert j in above;
    }
  }
}
