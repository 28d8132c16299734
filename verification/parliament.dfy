/** The constant stub minds of server/intelligence/minds.ts and the older
    majority-vote `runParliament` of server/intelligence/parliament.ts.
    These files use their own vote shape, with a `reasoning` string
    instead of the lists of the scoring engine. */
module Parliament {
  import opened Types
  import Js
  import Utils

  datatype StubVote = StubVote(mind: string, direction: VoteDirection, score: int, reasoning: string)

  /** The context the parliament reads and writes; only `votes` is used. */
  datatype ParliamentContext = ParliamentContext(votes: seq<StubVote>)

  datatype Decision = Decision(mind: string, direction: VoteDirection, score: int)

  /** `riskMind`: always REVISE with score 50. */
  function StubRiskMind(ctx: ParliamentContext): (v: StubVote)
    ensures v.mind == "RISK" && v.direction == REVISE && v.score == 50
  {
    StubVote("RISK", REVISE, 50, "Risk assessment pending")
  }

  /** `operationsMind`: always APPROVE with score 75. */
  function OperationsMind(ctx: ParliamentContext): (v: StubVote)
    ensures v.mind == "OPERATIONS" && v.direction == APPROVE && v.score == 75
  {
    StubVote("OPERATIONS", APPROVE, 75, "Operations approved")
  }

  /** `evidenceMind`: always APPROVE with score 70. */
  function EvidenceMind(ctx: ParliamentContext): (v: StubVote)
    ensures v.mind == "EVIDENCE" && v.direction == APPROVE && v.score == 70
  {
    StubVote("EVIDENCE", APPROVE, 70, "Evidence sufficient")
  }

  /** `efficiencyMind`: always APPROVE with score 80. */
  function EfficiencyMind(ctx: ParliamentContext): (v: StubVote)
    ensures v.mind == "EFFICIENCY" && v.direction == APPROVE && v.score == 80
  {
    StubVote("EFFICIENCY", APPROVE, 80, "Efficient approach")
  }

  /** The number of votes with direction `d`. */
  function CountOf(votes: seq<StubVote>, d: VoteDirection): (n: nat)
    ensures n <= |votes|
  {
    if |votes| == 0 then 0
    else CountOf(votes[..|votes| - 1], d) + (if votes[|votes| - 1].direction == d then 1 else 0)
  }

  function SumScores(votes: seq<StubVote>): int
  {
    if |votes| == 0 then 0 else SumScores(votes[..|votes| - 1]) + votes[|votes| - 1].score
  }

  /** The majority rule: APPROVE when approvals outnumber rejections,
      REJECT when rejections outnumber approvals, REVISE on a tie. */
  function Majority(votes: seq<StubVote>): (d: VoteDirection)
    ensures d == APPROVE <==> CountOf(votes, APPROVE) > CountOf(votes, REJECT)
    ensures d == REJECT <==> CountOf(votes, REJECT) > CountOf(votes, APPROVE)
    ensures d == REVISE <==> CountOf(votes, APPROVE) == CountOf(votes, REJECT)
  {
    var approves := CountOf(votes, APPROVE);
    var rejects := CountOf(votes, REJECT);
    if approves > rejects then APPROVE
    else if rejects > approves then REJECT
    else REVISE
  }

  /** The smallest and largest vote score. */
  function MinScore(votes: seq<StubVote>): int
    requires |votes| > 0
  {
    if |votes| == 1 then votes[0].score
    else Utils.Min(MinScore(votes[..|votes| - 1]), votes[|votes| - 1].score)
  }

  function MaxScore(votes: seq<StubVote>): int
    requires |votes| > 0
  {
    if |votes| == 1 then votes[0].score
    else Utils.Max(MaxScore(votes[..|votes| - 1]), votes[|votes| - 1].score)
  }

  /** The sum of the scores lies between |votes| times the smallest and
      |votes| times the largest. */
  lemma SumBetween(votes: seq<StubVote>)
    requires |votes| > 0
    ensures |votes| * MinScore(votes) <= SumScores(votes) <= |votes| * MaxScore(votes)
  {
    ScoreBounds(votes);
    SumAtLeast(votes, MinScore(votes));
    SumAtMost(votes, MaxScore(votes));
  }

  /** Every vote's score lies between the smallest and the largest. */
  lemma {:induction false} ScoreBounds(votes: seq<StubVote>)
    requires |votes| > 0
    ensures forall i :: 0 <= i < |votes| ==> MinScore(votes) <= votes[i].score <= MaxScore(votes)
    decreases |votes|
  {
    if |votes| > 1 {
      ScoreBounds(votes[..|votes| - 1]);
    }
  }

  lemma {:induction false} SumAtLeast(votes: seq<StubVote>, m: int)
    requires forall i :: 0 <= i < |votes| ==> m <= votes[i].score
    ensures |votes| * m <= SumScores(votes)
    decreases |votes|
  {
    if |votes| > 0 {
      var p := votes[..|votes| - 1];
      SumAtLeast(p, m);
      assert |votes| * m == |p| * m + m;
    }
  }

  lemma {:induction false} SumAtMost(votes: seq<StubVote>, m: int)
    requires forall i :: 0 <= i < |votes| ==> votes[i].score <= m
    ensures SumScores(votes) <= |votes| * m
    decreases |votes|
  {
    if |votes| > 0 {
      var p := votes[..|votes| - 1];
      SumAtMost(p, m);
      assert |votes| * m == |p| * m + m;
    }
  }

  /** The decision over any non-empty vote list: the majority direction
      and the rounded mean score, which lies between the smallest and the
      largest vote score. */
  function Decide(votes: seq<StubVote>): (r: Decision)
    requires |votes| > 0
    ensures r.mind == "PARLIAMENT"
    ensures r.direction == Majority(votes)
    ensures MinScore(votes) <= r.score <= MaxScore(votes)
    ensures 2 * |votes| * r.score <= 2 * SumScores(votes) + |votes| < 2 * |votes| * r.score + 2 * |votes|
  {
    SumBetween(votes);
    Js.RoundDivRange(SumScores(votes), |votes|, MinScore(votes), MaxScore(votes));
    Decision("PARLIAMENT", Majority(votes), Js.RoundDiv(SumScores(votes), |votes|))
  }

  /** `runParliament(ctx)`: the four stub votes in the order risk,
      operations, evidence, efficiency, stored into the context, and the
      decision over them. */
  function RunParliament(ctx: ParliamentContext): (r: (Decision, ParliamentContext))
    ensures |r.1.votes| == 4
    ensures r.1.votes[0].mind == "RISK" && r.1.votes[1].mind == "OPERATIONS"
    ensures r.1.votes[2].mind == "EVIDENCE" && r.1.votes[3].mind == "EFFICIENCY"
    ensures r.0 == Decide(r.1.votes)
  {
    var votes := [StubRiskMind(ctx), OperationsMind(ctx), EvidenceMind(ctx), EfficiencyMind(ctx)];
    (Decide(votes), ctx.(votes := votes))
  }

  /** With the stub minds every context gets APPROVE with score 69 (the
      mean 68.75 rounded). */
  lemma StubParliamentApproves(ctx: ParliamentContext)
    ensures RunParliament(ctx).0 == Decision("PARLIAMENT", APPROVE, 69)
  {
    var votes := RunParliament(ctx).1.votes;
    var a, b, c, d := votes[0], votes[1], votes[2], votes[3];
    assert votes == [a, b, c, d];
    assert votes[..3] == [a, b, c];
    assert [a, b, c][..2] == [a, b];
    assert [a, b][..1] == [a];
    assert [a][..0] == [];
    assert CountOf([a], APPROVE) == 0 && CountOf([a], REJECT) == 0 && SumScores([a]) == 50;
    assert CountOf([a, b], APPROVE) == 1 && CountOf([a, b], REJECT) == 0 && SumScores([a, b]) == 125;
    assert CountOf([a, b, c], APPROVE) == 2 && CountOf([a, b, c], REJECT) == 0 && SumScores([a, b, c]) == 195;
    assert CountOf(votes, APPROVE) == 3 && CountOf(votes, REJECT) == 0 && SumScores(votes) == 275;
  }

  /** REVISE votes never change the direction: adding one leaves both
      counts the direction depends on as they were. */
  lemma ReviseVotesDoNotCount(votes: seq<StubVote>, v: StubVote)
    requires v.direction == REVISE
    ensures Majority(votes + [v]) == Majority(votes)
  {
    assert (votes + [v])[..|votes|] == votes;
  }
}
