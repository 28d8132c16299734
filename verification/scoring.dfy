/** The vote aggregation engine of server/intelligence/scoring.ts: folds a
    list of mind votes into one `ParliamentAggregate`.

    `Math.round(x)` is floor(x + 1/2). The score formula
    `meanScore - 0.55 * meanRisk - 0.35 * dissentPct` is computed exactly
    over the rationals, scaled by 100 * n (see `RawScore`). */
module Scoring {
  import opened Types
  import Js
  import Utils

  datatype Counts = Counts(approvals: nat, revises: nat, rejects: nat, total: nat)

  /** The three buckets add up to the total, as `bucketCounts` ensures. */
  predicate ValidCounts(c: Counts)
  {
    c.approvals + c.revises + c.rejects == c.total
  }

  /** The directions of the votes, in vote order. */
  function Directions(votes: seq<MindVote>): (r: seq<VoteDirection>)
    ensures |r| == |votes|
    ensures forall i :: 0 <= i < |votes| ==> r[i] == votes[i].direction
  {
    seq(|votes|, i requires 0 <= i < |votes| => votes[i].direction)
  }

  /** The size of one bucket. */
  function Bucket(c: Counts, d: VoteDirection): nat
  {
    match d
    case APPROVE => c.approvals
    case REVISE => c.revises
    case REJECT => c.rejects
  }

  /** `bucketCounts(votes)`: one pass over the votes; APPROVE and REVISE have
      their own buckets and every other direction counts as a reject. Each
      bucket is the number of votes with that direction. */
  function BucketCounts(votes: seq<MindVote>): (c: Counts)
    decreases |votes|
    ensures ValidCounts(c) && c.total == |votes|
    ensures c.approvals == multiset(Directions(votes))[APPROVE]
    ensures c.revises == multiset(Directions(votes))[REVISE]
    ensures c.rejects == multiset(Directions(votes))[REJECT]
  {
    if |votes| == 0 then Counts(0, 0, 0, 0)
    else
      var prefix := votes[..|votes| - 1];
      var d := votes[|votes| - 1].direction;
      assert Directions(votes) == Directions(prefix) + [d];
      var c := BucketCounts(prefix);
      if d == APPROVE then c.(approvals := c.approvals + 1, total := c.total + 1)
      else if d == REVISE then c.(revises := c.revises + 1, total := c.total + 1)
      else c.(rejects := c.rejects + 1, total := c.total + 1)
  }

  /** The largest bucket, `Math.max(approvals, revises, rejects)`. */
  function Top(c: Counts): (m: nat)
    ensures m == c.approvals || m == c.revises || m == c.rejects
    ensures c.approvals <= m && c.revises <= m && c.rejects <= m
  {
    Utils.Max(c.approvals, Utils.Max(c.revises, c.rejects))
  }

  /** The smallest bucket. */
  function Bottom(c: Counts): nat
  {
    Utils.Min(c.approvals, Utils.Min(c.revises, c.rejects))
  }

  /** `computeAgreementPct`: the share of the largest bucket, in percent,
      rounded; 0 when there are no votes. */
  function AgreementPct(c: Counts): (r: int)
    requires ValidCounts(c)
    ensures 0 <= r <= 100
    ensures c.total == 0 ==> r == 0
    ensures c.total > 0 ==> 2 * c.total * r <= 200 * Top(c) + c.total < 2 * c.total * r + 2 * c.total
  {
    if c.total == 0 then 0
    else
      Js.RoundDivRange(100 * Top(c), c.total, 0, 100);
      Js.RoundDiv(100 * Top(c), c.total)
  }

  /** `[a, b, c].sort((x, y) => y - x)`: the three values in descending order. */
  function SortDescending3(a: int, b: int, c: int): (r: (int, int, int))
    ensures r.0 >= r.1 >= r.2
    ensures multiset{r.0, r.1, r.2} == multiset{a, b, c}
  {
    if a >= b then
      if b >= c then (a, b, c) else if a >= c then (a, c, b) else (c, a, b)
    else
      if a >= c then (b, a, c) else if b >= c then (b, c, a) else (c, b, a)
  }

  /** `computeMargin`: the largest bucket minus the second largest. It is
      never negative, the top bucket exceeds the middle one by exactly the
      margin, and it is 0 exactly when two buckets tie for the top. */
  function Margin(c: Counts): (r: int)
    ensures r >= 0
    ensures r == Top(c) - (c.approvals + c.revises + c.rejects - Top(c) - Bottom(c))
    ensures r == 0 <==> (exists d, e :: d != e && Bucket(c, d) == Top(c) && Bucket(c, e) == Top(c))
  {
    var sorted := SortDescending3(c.approvals, c.revises, c.rejects);
    var r := sorted.0 - sorted.1;
    assert r == 0 ==> (exists d, e :: d != e && Bucket(c, d) == Top(c) && Bucket(c, e) == Top(c)) by {
      if r == 0 {
        if c.approvals == Top(c) && c.revises == Top(c) {
          assert Bucket(c, APPROVE) == Top(c) && Bucket(c, REVISE) == Top(c);
        } else if c.approvals == Top(c) && c.rejects == Top(c) {
          assert Bucket(c, APPROVE) == Top(c) && Bucket(c, REJECT) == Top(c);
        } else {
          assert Bucket(c, REVISE) == Top(c) && Bucket(c, REJECT) == Top(c);
        }
      }
    }
    r
  }

  /** `decideDirection`: a direction with the largest bucket; ties go to
      REVISE, then REJECT, then APPROVE. */
  function DecideDirection(c: Counts): (d: VoteDirection)
    ensures Bucket(c, d) == Top(c)
    ensures d == REJECT ==> c.revises < Top(c)
    ensures d == APPROVE ==> c.revises < Top(c) && c.rejects < Top(c)
  {
    var max := Top(c);
    var tied := (if c.revises == max then [REVISE] else [])
             + (if c.rejects == max then [REJECT] else [])
             + (if c.approvals == max then [APPROVE] else []);
    tied[0]
  }

  /** `confidenceFrom`: LOW with fewer than three votes; otherwise HIGH when
      agreement, margin and risk all pass the strict thresholds, MEDIUM when
      they pass the looser ones, LOW otherwise. */
  function ConfidenceFrom(voteCount: nat, agreementPct: int, margin: int, finalRisk: int): (r: ConfidenceLevel)
    ensures voteCount < 3 ==> r == LOW
    ensures r == HIGH <==> voteCount >= 3 && agreementPct >= 80 && margin >= 2 && finalRisk <= 35
    ensures r == MEDIUM <==> voteCount >= 3 && agreementPct >= 60 && margin >= 1 && finalRisk <= 60 && r != HIGH
  {
    if voteCount < 3 then LOW
    else if agreementPct >= 80 && margin >= 2 && finalRisk <= 35 then HIGH
    else if agreementPct >= 60 && margin >= 1 && finalRisk <= 60 then MEDIUM
    else LOW
  }

  function ConfidenceRank(c: ConfidenceLevel): nat
  {
    match c
    case LOW => 0
    case MEDIUM => 1
    case HIGH => 2
  }

  /** More votes, more agreement, a larger margin and a lower risk never
      lower the confidence: every HIGH threshold implies the MEDIUM one. */
  lemma ConfidenceMonotone(n: nat, a: int, m: int, k: int, n': nat, a': int, m': int, k': int)
    requires n <= n' && a <= a' && m <= m' && k' <= k
    ensures ConfidenceRank(ConfidenceFrom(n, a, m, k)) <= ConfidenceRank(ConfidenceFrom(n', a', m', k'))
  {
  }

  /** The sum of the vote scores. */
  function SumScores(votes: seq<MindVote>): int
  {
    if |votes| == 0 then 0 else SumScores(votes[..|votes| - 1]) + votes[|votes| - 1].score
  }

  /** The sum of the vote risks. */
  function SumRisks(votes: seq<MindVote>): int
  {
    if |votes| == 0 then 0 else SumRisks(votes[..|votes| - 1]) + votes[|votes| - 1].risk
  }

  /** `Math.round(meanScore - meanRisk * 0.55 - dissentPct * 0.35)` with
      the means over `n` votes (both means 0 when there are none), as one
      rounded fraction over the denominator 100 * max(n, 1). */
  function RawScore(sumScores: int, sumRisks: int, n: nat, agreementPct: int): int
  {
    var m := if n == 0 then 1 else n;
    Js.RoundDiv(100 * sumScores - 55 * sumRisks - 35 * (100 - agreementPct) * m, 100 * m)
  }

  /** `RawScore` is the rounding of the real-valued score formula. */
  lemma RawScoreIsRoundedFormula(sumScores: int, sumRisks: int, n: nat, agreementPct: int)
    requires n > 0
    ensures var x := (sumScores as real) / (n as real) - 0.55 * ((sumRisks as real) / (n as real))
                     - 0.35 * ((100 - agreementPct) as real);
            (RawScore(sumScores, sumRisks, n, agreementPct) as real) - 0.5 <= x
            < (RawScore(sumScores, sumRisks, n, agreementPct) as real) + 0.5
  {
    var num := 100 * sumScores - 55 * sumRisks - 35 * (100 - agreementPct) * n;
    assert RawScore(sumScores, sumRisks, n, agreementPct) == Js.RoundDiv(num, 100 * n);
    Js.RoundDivNearest(num, 100 * n);
    ScaledFormula(sumScores, sumRisks, n, agreementPct);
  }

  /** The scaled-integer numerator over `100 * n` is the real-valued
      penalised mean. */
  lemma ScaledFormula(sumScores: int, sumRisks: int, n: nat, agreementPct: int)
    requires n > 0
    ensures ((100 * sumScores - 55 * sumRisks - 35 * (100 - agreementPct) * n) as real) / ((100 * n) as real)
            == (sumScores as real) / (n as real) - 0.55 * ((sumRisks as real) / (n as real))
               - 0.35 * ((100 - agreementPct) as real)
  {
    var nn := n as real;
    assert ((100 * sumScores - 55 * sumRisks - 35 * (100 - agreementPct) * n) as real)
           == 100.0 * (sumScores as real) - 55.0 * (sumRisks as real) - 35.0 * ((100 - agreementPct) as real) * nn;
    assert ((100 * n) as real) == 100.0 * nn;
    QuotientOfScaledSum(sumScores as real, sumRisks as real, (100 - agreementPct) as real, nn);
  }

  lemma QuotientOfScaledSum(s: real, k: real, d: real, n: real)
    requires n > 0.0
    ensures (100.0 * s - 55.0 * k - 35.0 * d * n) / (100.0 * n) == s / n - 0.55 * (k / n) - 0.35 * d
  {
    var lhs := (100.0 * s - 55.0 * k - 35.0 * d * n) / (100.0 * n);
    assert lhs * (100.0 * n) == 100.0 * s - 55.0 * k - 35.0 * d * n;
    var rhs := s / n - 0.55 * (k / n) - 0.35 * d;
    assert (s / n) * n == s;
    assert (k / n) * n == k;
    assert rhs * (100.0 * n) == 100.0 * ((s / n) * n) - 55.0 * ((k / n) * n) - 35.0 * d * n;
  }

  /** The per-direction ceiling on the final score: 25 for REJECT, 65 for
      REVISE, none for APPROVE. */
  function CapScore(d: VoteDirection, score: int): (r: int)
    ensures r <= score
    ensures d == REJECT ==> r <= 25
    ensures d == REVISE ==> r <= 65
    ensures d == APPROVE ==> r == score
  {
    match d
    case REJECT => Utils.Min(score, 25)
    case REVISE => Utils.Min(score, 65)
    case APPROVE => score
  }

  /** Every reason of every vote, prefixed "MIND: ", in vote order. */
  function LabelledReasons(votes: seq<MindVote>): seq<string>
  {
    if |votes| == 0 then []
    else
      var v := votes[0];
      seq(|v.reasons|, i requires 0 <= i < |v.reasons| => MindName(v.mind) + ": " + v.reasons[i])
      + LabelledReasons(votes[1..])
  }

  function AllNextSteps(votes: seq<MindVote>): seq<string>
  {
    if |votes| == 0 then [] else votes[0].requiredNextSteps + AllNextSteps(votes[1..])
  }

  function AllRiskTags(votes: seq<MindVote>): seq<RiskTag>
  {
    if |votes| == 0 then [] else votes[0].riskTags + AllRiskTags(votes[1..])
  }

  function AllSignals(votes: seq<MindVote>): seq<SignalTag>
  {
    if |votes| == 0 then [] else votes[0].signals + AllSignals(votes[1..])
  }

  /** The `topReasons` of the aggregate: the labelled reasons cut to 40 and
      then to 12, i.e. the first min(12, all) of them. */
  function TopReasons(votes: seq<MindVote>): (r: seq<string>)
    ensures |r| == Utils.Min(12, |LabelledReasons(votes)|)
    ensures r == LabelledReasons(votes)[..|r|]
  {
    Js.Take(Js.Take(LabelledReasons(votes), 40), 12)
  }

  /** The `requiredNextSteps` of the aggregate: the distinct next steps in
      first-occurrence order, at most 20 of them. */
  function NextSteps(votes: seq<MindVote>): (r: seq<string>)
    ensures Utils.NoDuplicates(r) && |r| <= 20
    ensures |r| == Utils.Min(20, |Utils.Uniq(AllNextSteps(votes))|)
    ensures r == Utils.Uniq(AllNextSteps(votes))[..|r|]
  {
    var u := Utils.Uniq(AllNextSteps(votes));
    var r := Js.Take(u, 20);
    assert forall i :: 0 <= i < |r| ==> r[i] == u[i];
    r
  }

  /** The `finalRisk` of the aggregate: the rounded mean risk, clamped to
      [0, 100]; for votes whose risk is already in range no clamping is
      needed, and an empty list gives 0. */
  function FinalRisk(votes: seq<MindVote>): (r: int)
    ensures 0 <= r <= 100
    ensures |votes| == 0 ==> r == 0
    ensures (forall i :: 0 <= i < |votes| ==> VoteInRange(votes[i])) ==>
              r == Js.RoundDiv(SumRisks(votes), if |votes| == 0 then 1 else |votes|)
  {
    var m := if |votes| == 0 then 1 else |votes|;
    if forall i :: 0 <= i < |votes| ==> VoteInRange(votes[i]) then
      SumRisksInRange(votes);
      Js.RoundDivRange(SumRisks(votes), m, 0, 100);
      Utils.Clamp100(Js.RoundDiv(SumRisks(votes), m))
    else
      Utils.Clamp100(Js.RoundDiv(SumRisks(votes), m))
  }

  /** The aggregate of an empty vote list. */
  const EmptyAggregate: ParliamentAggregate :=
    ParliamentAggregate(REVISE, 0, 0, LOW, Consensus(0, 0, 0, 0, 0, 0), [], [], [], [])

  /** `aggregateVotes(votes)`. */
  function AggregateVotes(votes: seq<MindVote>): (a: ParliamentAggregate)
    ensures AggregateInRange(a)
    ensures a.consensus.total == |votes|
    ensures a.consensus.approvals + a.consensus.revises + a.consensus.rejects == |votes|
    ensures a.finalDirection == REJECT ==> a.finalScore <= 25
    ensures a.finalDirection == REVISE ==> a.finalScore <= 65
    ensures |votes| < 3 ==> a.confidence == LOW
    ensures a.confidence == HIGH ==> |votes| >= 3 && a.consensus.agreementPct >= 80
                                     && a.consensus.margin >= 2 && a.finalRisk <= 35
    ensures a.confidence == MEDIUM ==> |votes| >= 3 && a.consensus.agreementPct >= 60
                                       && a.consensus.margin >= 1 && a.finalRisk <= 60
  {
    var counts := BucketCounts(votes);
    var agreementPct := AgreementPct(counts);
    var margin := Margin(counts);
    var finalDirection := DecideDirection(counts);
    var raw := RawScore(SumScores(votes), SumRisks(votes), |votes|, agreementPct);
    var finalScore := CapScore(finalDirection, Utils.Clamp100(raw));
    var finalRisk := FinalRisk(votes);
    var confidence := ConfidenceFrom(|votes|, agreementPct, margin, finalRisk);
    var topReasons := TopReasons(votes);
    var requiredNextSteps := NextSteps(votes);
    var riskTags := Utils.Uniq(AllRiskTags(votes));
    var signals := Utils.Uniq(AllSignals(votes));
    ParliamentAggregate(
      finalDirection, finalScore, finalRisk, confidence,
      Consensus(counts.approvals, counts.revises, counts.rejects, counts.total, agreementPct, margin),
      topReasons, requiredNextSteps, riskTags, signals)
  }

  /** The direction, agreement, margin, risk and confidence of the
      aggregate are those the helpers compute from the bucket counts and
      the votes. */
  lemma AggregateConsensus(votes: seq<MindVote>)
    ensures var a := AggregateVotes(votes);
            var k := BucketCounts(votes);
            && a.finalDirection == DecideDirection(k)
            && a.consensus.agreementPct == AgreementPct(k)
            && a.consensus.margin == Margin(k)
            && a.finalRisk == FinalRisk(votes)
            && a.confidence == ConfidenceFrom(|votes|, a.consensus.agreementPct, a.consensus.margin, a.finalRisk)
  {
  }

  /** Each consensus bucket is the number of votes with that direction,
      and the margin is the top bucket minus the middle one: zero exactly
      when two directions tie for the top. */
  lemma AggregateCountsVotes(votes: seq<MindVote>)
    ensures var c := AggregateVotes(votes).consensus;
            && c.approvals == multiset(Directions(votes))[APPROVE]
            && c.revises == multiset(Directions(votes))[REVISE]
            && c.rejects == multiset(Directions(votes))[REJECT]
    ensures var c := AggregateVotes(votes).consensus;
            var k := Counts(c.approvals, c.revises, c.rejects, c.total);
            && c.margin == Top(k) - (c.approvals + c.revises + c.rejects - Top(k) - Bottom(k))
            && (c.margin == 0 <==> exists d, e :: d != e && Bucket(k, d) == Top(k) && Bucket(k, e) == Top(k))
  {
    assert AggregateVotes(votes).consensus.margin == Margin(BucketCounts(votes));
  }

  /** The reason and tag lists of the aggregate: the first 12 labelled
      reasons in vote order, the first 20 distinct next steps, and the
      risk tags and signals of all votes, each kept at its first
      occurrence (`Utils.Uniq`). */
  lemma AggregateLists(votes: seq<MindVote>)
    ensures var a := AggregateVotes(votes);
            && |a.topReasons| == Utils.Min(12, |LabelledReasons(votes)|)
            && a.topReasons == LabelledReasons(votes)[..|a.topReasons|]
            && a.requiredNextSteps == NextSteps(votes)
            && Utils.NoDuplicates(a.riskTags)
            && (forall i :: 0 <= i < |a.riskTags| ==> a.riskTags[i] in AllRiskTags(votes))
            && (forall i :: 0 <= i < |AllRiskTags(votes)| ==> AllRiskTags(votes)[i] in a.riskTags)
            && Utils.NoDuplicates(a.signals)
            && (forall i :: 0 <= i < |a.signals| ==> a.signals[i] in AllSignals(votes))
            && (forall i :: 0 <= i < |AllSignals(votes)| ==> AllSignals(votes)[i] in a.signals)
            && a.riskTags == Utils.Uniq(AllRiskTags(votes))
            && a.signals == Utils.Uniq(AllSignals(votes))
  {
  }

  /** An empty vote list is valid input: it gives REVISE, score and risk 0,
      LOW confidence, an all-zero consensus and empty lists. */
  lemma EmptyVotes()
    ensures AggregateVotes([]) == EmptyAggregate
  {
    var a := AggregateVotes([]);
    assert a.finalDirection == REVISE;
    assert a.finalScore == 0;
    assert a.finalRisk == 0;
    assert a.confidence == LOW;
    assert a.consensus == Consensus(0, 0, 0, 0, 0, 0);
    assert a.topReasons == [];
    assert a.requiredNextSteps == [];
    assert a.riskTags == [];
    assert a.signals == [];
  }

  /** A tie for the top bucket is broken towards caution: two approvals and
      two revisions give REVISE. */
  lemma TieGoesToRevise(votes: seq<MindVote>)
    requires multiset(Directions(votes)) == multiset{APPROVE, APPROVE, REVISE, REVISE}
    ensures AggregateVotes(votes).finalDirection == REVISE
    ensures AggregateVotes(votes).consensus.margin == 0
    ensures AggregateVotes(votes).consensus.agreementPct == 50
  {
    var c := BucketCounts(votes);
    assert c.approvals == 2 && c.revises == 2 && c.rejects == 0;
  }

  /** The final direction of the aggregate depends only on the bucket sizes:
      REVISE wins every tie it takes part in, REJECT beats APPROVE on a tie. */
  lemma DirectionPriority(votes: seq<MindVote>)
    ensures var c := AggregateVotes(votes).consensus;
            var d := AggregateVotes(votes).finalDirection;
            && (c.revises >= c.approvals && c.revises >= c.rejects <==> d == REVISE)
            && (c.rejects > c.revises && c.rejects >= c.approvals <==> d == REJECT)
            && (c.approvals > c.revises && c.approvals > c.rejects <==> d == APPROVE)
  {
  }

  lemma {:induction false} SumRisksInRange(votes: seq<MindVote>)
    requires forall i :: 0 <= i < |votes| ==> VoteInRange(votes[i])
    ensures 0 <= SumRisks(votes) <= 100 * |votes|
    decreases |votes|
  {
    if |votes| > 0 {
      SumRisksInRange(votes[..|votes| - 1]);
      assert VoteInRange(votes[|votes| - 1]);
    }
  }

  /** `meanScore - meanRisk * 0.55 - dissentPct * 0.35` in exact reals,
      with both means 0 over an empty list. */
  function ScoreFormula(sumScores: int, sumRisks: int, v: nat, agreementPct: int): real
  {
    var n := if v == 0 then 1 else v;
    (sumScores as real) / (n as real) - 0.55 * ((sumRisks as real) / (n as real))
    - 0.35 * ((100 - agreementPct) as real)
  }

  /** `Math.round(x) == s`: `s` is the integer nearest `x`, halves up. */
  predicate RoundsTo(s: int, x: real)
  {
    (s as real) - 0.5 <= x < (s as real) + 0.5
  }

  /** The final score is the per-direction cap of the clamped score `s`,
      and `s` is `Math.round` of the real-valued score formula over the
      aggregate's own agreement. */
  lemma FinalScoreFormula(votes: seq<MindVote>)
    ensures var a := AggregateVotes(votes);
            exists s: int :: && a.finalScore == CapScore(a.finalDirection, Utils.Clamp100(s))
                             && RoundsTo(s, ScoreFormula(SumScores(votes), SumRisks(votes), |votes|, a.consensus.agreementPct))
  {
    var a := AggregateVotes(votes);
    var s := RawScore(SumScores(votes), SumRisks(votes), |votes|, a.consensus.agreementPct);
    assert a.finalScore == CapScore(a.finalDirection, Utils.Clamp100(s));
    RawScoreNearest(SumScores(votes), SumRisks(votes), |votes|, a.consensus.agreementPct);
  }

  /** `RawScoreIsRoundedFormula` for any vote count. */
  lemma RawScoreNearest(sumScores: int, sumRisks: int, v: nat, agreementPct: int)
    ensures RoundsTo(RawScore(sumScores, sumRisks, v, agreementPct), ScoreFormula(sumScores, sumRisks, v, agreementPct))
  {
    var n := if v == 0 then 1 else v;
    assert RawScore(sumScores, sumRisks, v, agreementPct) == RawScore(sumScores, sumRisks, n, agreementPct);
    RawScoreIsRoundedFormula(sumScores, sumRisks, n, agreementPct);
  }

  /** `topReasons` keeps duplicates: two votes giving the same reason yield
      the same entry twice. */
  lemma TopReasonsKeepDuplicates(v: MindVote)
    requires v.reasons == ["same"]
    ensures AggregateVotes([v, v]).topReasons == [MindName(v.mind) + ": " + "same", MindName(v.mind) + ": " + "same"]
  {
    var x := MindName(v.mind) + ": " + "same";
    assert LabelledReasons([v]) == [x] by {
      assert [v][1..] == [];
      var one := seq(|v.reasons|, i requires 0 <= i < |v.reasons| => MindName(v.mind) + ": " + v.reasons[i]);
      assert |one| == 1 && one[0] == x;
      assert one == [x];
    }
    assert LabelledReasons([v, v]) == [x, x] by {
      assert [v, v][1..] == [v];
    }
    assert TopReasons([v, v]) == [x, x];
    assert AggregateVotes([v, v]).topReasons == TopReasons([v, v]);
  }
}
