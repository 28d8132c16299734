/** The enumerations and record shapes of server/intelligence/types.ts. */
module Types {
  import opened Wrappers
  import Json
  import Utils

  datatype ConfidenceLevel = LOW | MEDIUM | HIGH

  datatype MindId = COMPLIANCE | RISK | OPERATIONS | EVIDENCE | EFFICIENCY | GOVERNANCE

  datatype VoteDirection = APPROVE | REVISE | REJECT

  datatype RiskTag = SAFETY | LEGAL | PRIVACY | SECURITY | FINANCIAL | REPUTATION | OPERATIONAL

  datatype SignalTag =
    | MISSING_INFO | CONTRADICTION | HIGH_IMPACT | REVERSIBLE | IRREVERSIBLE
    | TIME_SENSITIVE | USER_CONFIRMATION_REQUIRED

  datatype IntentType =
    | INFO_REQUEST | PLAN_REQUEST | DECISION_REQUEST | EXECUTION_REQUEST
    | STATUS_REQUEST | DEBUG_REQUEST | GOVERNANCE_REQUEST | UNKNOWN

  /** The input of the compliance mind. */
  datatype FallbackContext = FallbackContext(
    sessionId: Option<string>,
    requestId: string,
    nowIso: string,
    userText: string,
    metadata: Option<Json.Value>)

  /** One mind's vote. Score and risk are documented as lying in 0..100;
      the type does not enforce it, so the aggregation accepts any integer. */
  datatype MindVote = MindVote(
    mind: MindId,
    direction: VoteDirection,
    score: int,
    risk: int,
    riskTags: seq<RiskTag>,
    signals: seq<SignalTag>,
    reasons: seq<string>,
    requiredNextSteps: seq<string>,
    evidence: seq<string>)

  /** The documented range of a vote's score and risk. */
  predicate VoteInRange(v: MindVote)
  {
    0 <= v.score <= 100 && 0 <= v.risk <= 100
  }

  datatype Consensus = Consensus(
    approvals: nat,
    revises: nat,
    rejects: nat,
    total: nat,
    agreementPct: int,
    margin: int)

  datatype ParliamentAggregate = ParliamentAggregate(
    finalDirection: VoteDirection,
    finalScore: int,
    finalRisk: int,
    confidence: ConfidenceLevel,
    consensus: Consensus,
    topReasons: seq<string>,
    requiredNextSteps: seq<string>,
    riskTags: seq<RiskTag>,
    signals: seq<SignalTag>)

  /** The documented ranges of an aggregate: score, risk and agreement in
      0..100, and a margin that is never negative. */
  predicate AggregateInRange(a: ParliamentAggregate)
  {
    && 0 <= a.finalScore <= 100
    && 0 <= a.finalRisk <= 100
    && 0 <= a.consensus.agreementPct <= 100
    && a.consensus.margin >= 0
  }

  /** `AuditRecord.mode` has the single value "FALLBACK_PARLIAMENT". */
  datatype AuditMode = FALLBACK_PARLIAMENT

  datatype Extracted = Extracted(entities: seq<string>, constraints: seq<string>, questions: seq<string>)

  datatype AuditInput = AuditInput(
    userText: string,
    intent: IntentType,
    extracted: Extracted,
    metadata: Option<Json.Value>)

  datatype StructuredOutput = StructuredOutput(
    decision: VoteDirection,
    confidence: ConfidenceLevel,
    score: int,
    risk: int,
    nextSteps: seq<string>,
    riskTags: seq<RiskTag>,
    signals: seq<SignalTag>)

  datatype AuditOutput = AuditOutput(userMessage: string, structured: StructuredOutput)

  datatype AuditRecord = AuditRecord(
    version: string,
    mode: AuditMode,
    sessionId: Option<string>,
    requestId: string,
    createdAt: string,
    input: AuditInput,
    minds: seq<MindVote>,
    aggregate: ParliamentAggregate,
    output: AuditOutput)

  /** The string form of a mind id, as it appears in reasons. */
  function MindName(m: MindId): string
  {
    match m
    case COMPLIANCE => "COMPLIANCE"
    case RISK => "RISK"
    case OPERATIONS => "OPERATIONS"
    case EVIDENCE => "EVIDENCE"
    case EFFICIENCY => "EFFICIENCY"
    case GOVERNANCE => "GOVERNANCE"
  }

  const AllDirections: seq<VoteDirection> := [APPROVE, REVISE, REJECT]
  const AllConfidenceLevels: seq<ConfidenceLevel> := [LOW, MEDIUM, HIGH]
  const AllRiskTags: seq<RiskTag> :=
    [SAFETY, LEGAL, PRIVACY, SECURITY, FINANCIAL, REPUTATION, OPERATIONAL]
  const AllSignalTags: seq<SignalTag> :=
    [MISSING_INFO, CONTRADICTION, HIGH_IMPACT, REVERSIBLE, IRREVERSIBLE,
     TIME_SENSITIVE, USER_CONFIRMATION_REQUIRED]

  /** The enumerations have exactly three, three, seven and seven values:
      each listing is duplicate-free and names every value. */
  lemma EnumerationSizes()
    ensures |AllDirections| == 3 && Utils.NoDuplicates(AllDirections)
    ensures forall d: VoteDirection :: d in AllDirections
    ensures |AllConfidenceLevels| == 3 && Utils.NoDuplicates(AllConfidenceLevels)
    ensures forall c: ConfidenceLevel :: c in AllConfidenceLevels
    ensures |AllRiskTags| == 7 && Utils.NoDuplicates(AllRiskTags)
    ensures forall t: RiskTag :: t in AllRiskTags
    ensures |AllSignalTags| == 7 && Utils.NoDuplicates(AllSignalTags)
    ensures forall t: SignalTag :: t in AllSignalTags
  {
    forall d: VoteDirection ensures d in AllDirections {
      match d
      case APPROVE => assert AllDirections[0] == d;
      case REVISE => assert AllDirections[1] == d;
      case REJECT => assert AllDirections[2] == d;
    }
    forall c: ConfidenceLevel ensures c in AllConfidenceLevels {
      match c
      case LOW => assert AllConfidenceLevels[0] == c;
      case MEDIUM => assert AllConfidenceLevels[1] == c;
      case HIGH => assert AllConfidenceLevels[2] == c;
    }
    forall t: RiskTag ensures t in AllRiskTags {
      match t
      case SAFETY => assert AllRiskTags[0] == t;
      case LEGAL => assert AllRiskTags[1] == t;
      case PRIVACY => assert AllRiskTags[2] == t;
      case SECURITY => assert AllRiskTags[3] == t;
      case FINANCIAL => assert AllRiskTags[4] == t;
      case REPUTATION => assert AllRiskTags[5] == t;
      case OPERATIONAL => assert AllRiskTags[6] == t;
    }
    forall t: SignalTag ensures t in AllSignalTags {
      match t
      case MISSING_INFO => assert AllSignalTags[0] == t;
      case CONTRADICTION => assert AllSignalTags[1] == t;
      case HIGH_IMPACT => assert AllSignalTags[2] == t;
      case REVERSIBLE => assert AllSignalTags[3] == t;
      case IRREVERSIBLE => assert AllSignalTags[4] == t;
      case TIME_SENSITIVE => assert AllSignalTags[5] == t;
      case USER_CONFIRMATION_REQUIRED => assert AllSignalTags[6] == t;
    }
  }

  /** Distinct minds have distinct names, so "MIND: reason" identifies the mind. */
  lemma MindNameInjective(a: MindId, b: MindId)
    ensures MindName(a) == MindName(b) ==> a == b
  {
  }
}
