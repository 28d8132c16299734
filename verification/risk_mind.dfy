/** The failure-context risk mind of server/intelligence/minds/risk.ts.
    Its tags and signals are free-form strings outside the shared
    taxonomy, so it has its own vote type. */
module RiskMind {
  import opened Types
  import Js
  import Utils

  /** The failure context: the intent of the failed request and the reasons
      collected so far. (`votes` is destructured but never read.) */
  datatype FailureContext = FailureContext(intent: string, reasons: seq<string>)

  datatype RiskVote = RiskVote(
    mind: string,
    direction: VoteDirection,
    score: int,
    riskTags: seq<string>,
    signals: seq<string>)

  /** The vote together with the context's reasons array after the call,
      which `riskMind` may have appended to. */
  datatype RiskResult = RiskResult(vote: RiskVote, reasons: seq<string>)

  const RepeatSignal: string := "HIGH_RISK: Re-attempting same failed request"
  const RepeatReason: string := "Risk detected: repeating failure; may cause loop"
  const TransientSignal: string := "MODERATE_RISK: Network issues are transient"

  /** A reason that mentions a timeout or the network (case-sensitive). */
  predicate TransientReason(r: string)
  {
    Js.Includes(r, "timeout") || Js.Includes(r, "network")
  }

  /** `reasons.some(...)`. */
  predicate AnyTransient(reasons: seq<string>)
  {
    exists k :: 0 <= k < |reasons| && TransientReason(reasons[k])
  }

  /** The score thresholds: APPROVE from 70, REJECT from 40, REVISE below. */
  function DirectionOf(score: int): (d: VoteDirection)
    ensures d == APPROVE <==> score >= 70
    ensures d == REJECT <==> 40 <= score < 70
    ensures d == REVISE <==> score < 40
  {
    if score >= 70 then APPROVE else if score >= 40 then REJECT else REVISE
  }

  /** `riskMind(ctx)`, as written: the repeat check runs first and appends
      its reason to the context's reasons, then the transient check reads
      the appended list. */
  function RiskMindStep(ctx: FailureContext): (r: RiskResult)
    ensures r.vote.mind == "RISK"
    ensures r.reasons == ctx.reasons + (if ctx.intent == "REVISE" then [RepeatReason] else [])
    ensures r.vote.direction == DirectionOf(r.vote.score)
    ensures r.vote.score in {10, 40, 50}
  {
    var revise := ctx.intent == "REVISE";
    var score0 := 50;
    var tags0 := if revise then ["BLOCKED", "CRITICAL"] else [];
    var signals0 := if revise then [RepeatSignal] else [];
    var reasons := ctx.reasons + (if revise then [RepeatReason] else []);
    var score1 := if revise then Utils.Min(score0, 10) else score0;
    var transient := AnyTransient(reasons);
    var tags := tags0 + (if transient then ["TRANSIENT", "RETRY"] else []);
    var signals := signals0 + (if transient then [TransientSignal] else []);
    var score := if transient then Utils.Max(score1, 40) else score1;
    RiskResult(RiskVote("RISK", DirectionOf(score), Utils.Clamp100(score), tags, signals), reasons)
  }

  /** The repeat-failure reason mentions neither a timeout nor the
      network: it has no `w`, and its only `m` (in "may") is two places
      after a `;`, where a "timeout" would need its `t`. */
  lemma RepeatReasonNotTransient()
    ensures !TransientReason(RepeatReason)
  {
    ReasonSplit();
    ReasonLacksW();
    ReasonHasOneM();
    assert 'w' !in ReasonHead + ReasonTail;
    NoTimeoutAcross(ReasonHead, ReasonTail);
    Js.NotIncludesMissingChar(ReasonHead + ReasonTail, "network", 'w');
  }

  /** The repeat reason cut just before its only `m`. */
  const ReasonHead: string := "Risk detected: repeating failure; "
  const ReasonTail: string := "may cause loop"

  lemma ReasonSplit()
    ensures RepeatReason == ReasonHead + ReasonTail
  {
  }

  lemma ReasonLacksW()
    ensures 'w' !in ReasonHead && 'w' !in ReasonTail
  {
  }

  lemma ReasonHasOneM()
    ensures 'm' !in ReasonHead && |ReasonTail| > 0 && 'm' !in ReasonTail[1..]
    ensures |ReasonHead| >= 2 && ReasonHead[|ReasonHead| - 2] == ';'
  {
  }

  /** "timeout" cannot occur in `front + back` when its only `m` is the
      first character of `back` and the character two before that is not
      a `t`. */
  lemma NoTimeoutAcross(front: string, back: string)
    requires |front| >= 2 && front[|front| - 2] != 't'
    requires 'm' !in front && |back| > 0 && 'm' !in back[1..]
    ensures !Js.Includes(front + back, "timeout")
  {
    var h := front + back;
    forall i | 0 <= i && i + 7 <= |h| ensures !Js.OccursAt(h, "timeout", i) {
      var piece := h[i..i + 7];
      if i + 2 < |front| {
        assert piece[2] == front[i + 2] != "timeout"[2];
      } else if i + 2 > |front| {
        assert piece[2] == back[1..][i + 1 - |front|] != "timeout"[2];
      } else {
        assert piece[0] == front[|front| - 2] != "timeout"[0];
      }
    }
  }

  /** Appending one reason makes the list transient exactly when it was
      already or the new reason is. */
  lemma AnyTransientSnoc(reasons: seq<string>, x: string)
    ensures AnyTransient(reasons + [x]) <==> AnyTransient(reasons) || TransientReason(x)
  {
    var all := reasons + [x];
    if AnyTransient(reasons) {
      var k :| 0 <= k < |reasons| && TransientReason(reasons[k]);
      assert all[k] == reasons[k];
    }
    if TransientReason(x) {
      assert all[|reasons|] == x;
    }
  }

  /** The four outcomes, by whether the intent is REVISE and whether the
      caller's reasons hold a transient one (the appended repeat reason
      never is): the repeat cap gives 10 and REVISE, the transient floor
      lifts that to 40, and 50 otherwise; every outcome other than the
      bare repeat is REJECT, none is APPROVE. */
  lemma RiskMindOutcomes(ctx: FailureContext)
    ensures var r := RiskMindStep(ctx);
            var v := r.vote;
            var revise := ctx.intent == "REVISE";
            var transient := AnyTransient(ctx.reasons);
            && v.score == (if revise && !transient then 10 else if revise then 40 else 50)
            && v.direction == (if revise && !transient then REVISE else REJECT)
            && v.direction != APPROVE
            && v.riskTags == (if revise then ["BLOCKED", "CRITICAL"] else [])
                             + (if transient then ["TRANSIENT", "RETRY"] else [])
            && v.signals == (if revise then [RepeatSignal] else [])
                            + (if transient then [TransientSignal] else [])
  {
    TransientAfterRepeatCheck(ctx);
  }

  /** The transient check, which reads the reasons after the repeat check
      may have appended to them, sees a transient reason exactly when the
      caller's reasons hold one. */
  lemma TransientAfterRepeatCheck(ctx: FailureContext)
    ensures AnyTransient(RiskMindStep(ctx).reasons) <==> AnyTransient(ctx.reasons)
  {
    if ctx.intent == "REVISE" {
      AnyTransientSnoc(ctx.reasons, RepeatReason);
      RepeatReasonNotTransient();
    } else {
      assert ctx.reasons + [] == ctx.reasons;
    }
  }

  /** A transient reason among the caller's reasons always lifts the
      score to at least 40, overriding the repeat cap. */
  lemma TransientOverridesCap(ctx: FailureContext)
    requires AnyTransient(ctx.reasons)
    ensures RiskMindStep(ctx).vote.score >= 40
    ensures RiskMindStep(ctx).vote.direction == REJECT
    ensures "TRANSIENT" in RiskMindStep(ctx).vote.riskTags
  {
    if ctx.intent == "REVISE" {
      AnyTransientSnoc(ctx.reasons, RepeatReason);
    } else {
      assert ctx.reasons + [] == ctx.reasons;
    }
  }

  /** Only the repeat check writes to the reasons: for any other intent
      the context's reasons come back unchanged. */
  lemma ReasonsUntouchedUnlessRevise(ctx: FailureContext)
    requires ctx.intent != "REVISE"
    ensures RiskMindStep(ctx).reasons == ctx.reasons
  {
    assert ctx.reasons + [] == ctx.reasons;
  }

  /** How bad a direction is: APPROVE, then REVISE, then REJECT. */
  function Severity(d: VoteDirection): nat
  {
    match d
    case APPROVE => 0
    case REVISE => 1
    case REJECT => 2
  }

  /** The score-to-direction mapping is not monotone: raising the score
      from 39 to 40 makes the direction more severe (REVISE to REJECT),
      while raising it from 69 to 70 makes it less severe. */
  lemma DirectionNotMonotone()
    ensures Severity(DirectionOf(39)) < Severity(DirectionOf(40))
    ensures Severity(DirectionOf(69)) > Severity(DirectionOf(70))
  {
  }
}
