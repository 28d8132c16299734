/** The compliance mind of server/intelligence/minds/compliance.ts: four
    keyword checks over the normalised, lower-cased user text, each adding
    fixed tags, deltas, reasons and next steps, and a direction chosen by
    risk thresholds. */
module Compliance {
  import opened Types
  import Js
  import Utils

  const CredentialTerms: seq<string> := ["api key", "secret", "token", "password"]
  const LegalTerms: seq<string> := ["lawsuit", "sue", "criminal", "fraud", "tax evasion"]
  const ConcealmentTerms: seq<string> := ["delete logs", "hide", "cover up"]
  const ProductionTerms: seq<string> := ["production", "deploy", "render", "health"]

  const CredentialReason: string := "Sensitive credential handling detected; must avoid logging or echoing secrets."
  const CredentialStep: string := "Ensure secrets are never returned in responses or logs; redact before persistence."
  const LegalReason: string := "Potential legal-sensitive domain; ensure guidance stays informational and non-illicit."
  const LegalStep: string := "Add policy guardrails for legal/regulated requests; route to safe templates."
  const ConcealmentReason: string := "Request implies concealment; must not assist wrongdoing."
  const ConcealmentStep: string := "Refuse concealment requests; provide compliant alternatives (retention policy, redaction)."
  const ProductionEvidence: string := "Mentions production/deployment context; apply operational compliance (env vars, secrets, logs)."
  const ProductionReason: string := "Operational deployment context detected; ensure safe defaults and auditability."
  const ProductionStep: string := "Confirm health endpoints do not expose sensitive info; ensure rate limits."

  /** Which of the four checks fire. */
  datatype Fired = Fired(credential: bool, legal: bool, concealment: bool, production: bool)

  /** The checks that fire on the prepared text `t`. */
  function Checks(t: string): Fired
  {
    Fired(
      Utils.IncludesAny(t, CredentialTerms),
      Utils.IncludesAny(t, LegalTerms),
      Utils.IncludesAny(t, ConcealmentTerms),
      Utils.IncludesAny(t, ProductionTerms))
  }

  function Count(b: bool): nat { if b then 1 else 0 }

  /** The number of fired checks. */
  function FiredCount(f: Fired): nat
  {
    Count(f.credential) + Count(f.legal) + Count(f.concealment) + Count(f.production)
  }

  /** The running state of `complianceMind` between its checks. */
  datatype Acc = Acc(
    riskTags: seq<RiskTag>,
    signals: seq<SignalTag>,
    reasons: seq<string>,
    evidence: seq<string>,
    steps: seq<string>,
    risk: int,
    score: int)

  const Start: Acc := Acc([], [], [], [], [], 20, 70)

  /** The credential check: tags SECURITY and PRIVACY, asks for user
      confirmation, adds 25 to the risk and takes 25 from the score. */
  function CredentialCheck(fires: bool, a: Acc): (r: Acc)
    ensures !fires ==> r == a
    ensures fires ==> r.risk == a.risk + 25 && r.score == a.score - 25
    ensures fires ==> r.reasons == a.reasons + [CredentialReason] && r.steps == a.steps + [CredentialStep]
    ensures fires ==> r.riskTags == a.riskTags + [SECURITY, PRIVACY]
    ensures fires ==> r.signals == a.signals + [USER_CONFIRMATION_REQUIRED]
    ensures fires ==> r.evidence == a.evidence
  {
    if fires then
      a.(riskTags := a.riskTags + [SECURITY, PRIVACY],
         signals := a.signals + [USER_CONFIRMATION_REQUIRED],
         risk := a.risk + 25, score := a.score - 25,
         reasons := a.reasons + [CredentialReason],
         steps := a.steps + [CredentialStep])
    else a
  }

  /** The legal check: tags LEGAL and REPUTATION, adds 20 to the risk and
      takes 15 from the score. */
  function LegalCheck(fires: bool, a: Acc): (r: Acc)
    ensures !fires ==> r == a
    ensures fires ==> r.risk == a.risk + 20 && r.score == a.score - 15
    ensures fires ==> r.reasons == a.reasons + [LegalReason] && r.steps == a.steps + [LegalStep]
    ensures fires ==> r.riskTags == a.riskTags + [LEGAL, REPUTATION]
    ensures fires ==> r.signals == a.signals
    ensures fires ==> r.evidence == a.evidence
  {
    if fires then
      a.(riskTags := a.riskTags + [LEGAL, REPUTATION],
         risk := a.risk + 20, score := a.score - 15,
         reasons := a.reasons + [LegalReason],
         steps := a.steps + [LegalStep])
    else a
  }

  /** The concealment check: tags LEGAL and REPUTATION again, flags high
      impact, adds 30 to the risk and takes 30 from the score. */
  function ConcealmentCheck(fires: bool, a: Acc): (r: Acc)
    ensures !fires ==> r == a
    ensures fires ==> r.risk == a.risk + 30 && r.score == a.score - 30
    ensures fires ==> r.reasons == a.reasons + [ConcealmentReason] && r.steps == a.steps + [ConcealmentStep]
    ensures fires ==> r.riskTags == a.riskTags + [LEGAL, REPUTATION]
    ensures fires ==> r.signals == a.signals + [HIGH_IMPACT]
    ensures fires ==> r.evidence == a.evidence
  {
    if fires then
      a.(riskTags := a.riskTags + [LEGAL, REPUTATION],
         signals := a.signals + [HIGH_IMPACT],
         risk := a.risk + 30, score := a.score - 30,
         reasons := a.reasons + [ConcealmentReason],
         steps := a.steps + [ConcealmentStep])
    else a
  }

  /** The production check: only notes evidence, a reason and a step;
      risk, score and tags are untouched. */
  function ProductionCheck(fires: bool, a: Acc): (r: Acc)
    ensures !fires ==> r == a
    ensures fires ==> r.risk == a.risk && r.score == a.score
    ensures fires ==> r.reasons == a.reasons + [ProductionReason] && r.steps == a.steps + [ProductionStep]
    ensures fires ==> r.riskTags == a.riskTags
    ensures fires ==> r.signals == a.signals
    ensures fires ==> r.evidence == a.evidence + [ProductionEvidence]
  {
    if fires then
      a.(evidence := a.evidence + [ProductionEvidence],
         reasons := a.reasons + [ProductionReason],
         steps := a.steps + [ProductionStep])
    else a
  }

  /** The risk thresholds: REJECT from 70, REVISE from 40, APPROVE below. */
  function DirectionOf(risk: int): (d: VoteDirection)
    ensures d == REJECT <==> risk >= 70
    ensures d == REVISE <==> 40 <= risk < 70
    ensures d == APPROVE <==> risk < 40
  {
    if risk >= 70 then REJECT else if risk >= 40 then REVISE else APPROVE
  }

  /** The vote for a given set of fired checks, the checks applied in
      source order and the totals clamped at the end. Risk and score are
      the baseline plus the deltas of the fired checks, already inside
      [0, 100], and each fired check contributes one reason and one next
      step. */
  function Assess(f: Fired): (v: MindVote)
    ensures v.mind == COMPLIANCE
    ensures v.risk == 20 + 25 * Count(f.credential) + 20 * Count(f.legal) + 30 * Count(f.concealment)
    ensures v.score == 70 - 25 * Count(f.credential) - 15 * Count(f.legal) - 30 * Count(f.concealment)
    ensures 20 <= v.risk <= 95 && 0 <= v.score <= 70
    ensures v.direction == DirectionOf(v.risk)
    ensures |v.reasons| == FiredCount(f) && |v.requiredNextSteps| == FiredCount(f)
    ensures |v.evidence| == Count(f.production)
  {
    var a := ProductionCheck(f.production,
               ConcealmentCheck(f.concealment,
                 LegalCheck(f.legal,
                   CredentialCheck(f.credential, Start))));
    MindVote(COMPLIANCE, DirectionOf(a.risk), Utils.Clamp100(a.score), Utils.Clamp100(a.risk),
             a.riskTags, a.signals, a.reasons, a.steps, a.evidence)
  }

  /** `complianceMind(ctx)`. */
  function ComplianceMind(ctx: FallbackContext): (v: MindVote)
    ensures v.mind == COMPLIANCE && VoteInRange(v)
    ensures v.direction == DirectionOf(v.risk)
  {
    Assess(Checks(Utils.LowerNormalized(ctx.userText)))
  }

  /** With no keyword match the vote is APPROVE, score 70, risk 20 and
      every list empty. */
  lemma NoMatchApproves()
    ensures Assess(Fired(false, false, false, false))
         == MindVote(COMPLIANCE, APPROVE, 70, 20, [], [], [], [], [])
  {
  }

  /** A credential keyword adds SECURITY, PRIVACY and the confirmation
      signal and rules out APPROVE. */
  lemma CredentialNeverApproves(f: Fired)
    requires f.credential
    ensures var v := Assess(f);
            && v.direction != APPROVE
            && SECURITY in v.riskTags && PRIVACY in v.riskTags
            && USER_CONFIRMATION_REQUIRED in v.signals
            && v.reasons[0] == CredentialReason
  {
  }

  /** Concealment adds LEGAL, REPUTATION and HIGH_IMPACT and rules out
      APPROVE; together with a credential keyword it gives REJECT. */
  lemma ConcealmentNeverApproves(f: Fired)
    requires f.concealment
    ensures var v := Assess(f);
            && v.direction != APPROVE
            && LEGAL in v.riskTags && REPUTATION in v.riskTags && HIGH_IMPACT in v.signals
            && (f.credential ==> v.direction == REJECT)
  {
  }

  /** A legal keyword adds LEGAL and REPUTATION; with concealment as well
      the tag list carries LEGAL twice. */
  lemma LegalTagsRepeat(f: Fired)
    requires f.legal && f.concealment
    ensures var v := Assess(f);
            multiset(v.riskTags)[LEGAL] == 2 && multiset(v.riskTags)[REPUTATION] == 2
  {
  }

  /** The production check touches only the evidence, reasons and next
      steps, each of which gains one entry at the end. */
  lemma ProductionOnlyAddsNotes(f: Fired)
    ensures var v := Assess(f.(production := false));
            var w := Assess(f.(production := true));
            && w.direction == v.direction && w.score == v.score && w.risk == v.risk
            && w.riskTags == v.riskTags && w.signals == v.signals
            && w.reasons == v.reasons + [ProductionReason]
            && w.requiredNextSteps == v.requiredNextSteps + [ProductionStep]
            && w.evidence == v.evidence + [ProductionEvidence]
  {
  }

  /** The direction over all sixteen combinations: REJECT exactly when
      concealment fires with another risk-raising check, APPROVE exactly
      when none of the three risk-raising checks fires. */
  lemma DirectionTable(f: Fired)
    ensures Assess(f).direction == REJECT <==> f.concealment && (f.credential || f.legal)
    ensures Assess(f).direction == APPROVE <==> !f.credential && !f.legal && !f.concealment
  {
  }

  /** Matching is substring matching: "issue" fires the legal check
      through "sue". */
  lemma IssueFiresLegal()
    ensures Checks("issue").legal
  {
    Js.LowerOfLowerCase("issue");
    Js.LowerOfLowerCase("sue");
    assert Js.OccursAt("issue", "sue", 2);
    assert Js.Includes(Js.Lower("issue"), Js.Lower(LegalTerms[1]));
  }

  /** "issue" fires none of the other checks. */
  lemma IssueFiresOnlyLegal()
    ensures !Checks("issue").credential && !Checks("issue").concealment && !Checks("issue").production
  {
    IssueNoCredential();
    IssueNoConcealment();
    IssueNoProduction();
  }

  lemma IssueNoCredential()
    ensures !Utils.IncludesAny("issue", CredentialTerms)
  {
    Utils.NoTermOccurs("issue", CredentialTerms, [0, 2, 0, 0]);
  }

  lemma IssueNoConcealment()
    ensures !Utils.IncludesAny("issue", ConcealmentTerms)
  {
    Utils.NoTermOccurs("issue", ConcealmentTerms, [0, 0, 0]);
  }

  lemma IssueNoProduction()
    ensures !Utils.IncludesAny("issue", ProductionTerms)
  {
    Utils.NoTermOccurs("issue", ProductionTerms, [0, 0, 0, 0]);
  }

  /** End to end: the text "issue" gets a REVISE vote with risk 40, score
      55 and the legal tags. */
  lemma IssueIsRevised(ctx: FallbackContext)
    requires ctx.userText == "issue"
    ensures var v := ComplianceMind(ctx);
            && v.direction == REVISE && v.risk == 40 && v.score == 55
            && v.riskTags == [LEGAL, REPUTATION] && v.reasons == [LegalReason]
  {
    assert Checks(Utils.LowerNormalized(ctx.userText)) == Fired(false, true, false, false) by {
      NormalizedIssue();
      IssueFiresLegal();
      IssueFiresOnlyLegal();
    }
    LegalOnly();
  }

  /** The legal check alone gives REVISE, risk 40 and score 55. */
  lemma LegalOnly()
    ensures var v := Assess(Fired(false, true, false, false));
            && v.direction == REVISE && v.risk == 40 && v.score == 55
            && v.riskTags == [LEGAL, REPUTATION] && v.reasons == [LegalReason]
  {
  }

  lemma NormalizedIssue()
    ensures Utils.LowerNormalized("issue") == "issue"
  {
    assert Utils.Normalized("issue");
    Utils.NormalizeOfNormalized("issue");
    IssueIsLowerCase();
  }

  lemma IssueIsLowerCase()
    ensures Js.Lower("issue") == "issue"
  {
    Js.LowerOfLowerCase("issue");
  }
}
