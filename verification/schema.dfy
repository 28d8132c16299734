/** The record shapes and enumerations of shared/schema.ts as the in-memory
    store holds them. A column that may be missing or `null` is an
    `Option`; a timestamp is its millisecond count; a `jsonb` column is a
    `Json.Value` (a `Record<string, any>` column is the entry sequence of
    an object). Each `Insert…` record is its table's row without the
    server-assigned id and timestamps. */
module Schema {
  import opened Wrappers
  import Json

  /** `consent_requests.status`. */
  datatype ConsentStatus = Pending | Granted | Denied

  /** `actions.status`. */
  datatype ActionStatus = Pending | Success | Failed

  /** `ledger_entries.channel`. */
  datatype LedgerChannel = Api | Shortcut | Manual

  /** `ledger_entries.status`. */
  datatype LedgerStatus = Sent | Confirmed | Failed

  /** `opportunities.category`. */
  datatype OpportunityCategory = Safe | Balanced | Aggressive

  /** The text stored for each enumeration value. */
  function ConsentStatusName(s: ConsentStatus): string
  {
    match s
    case Pending => "pending"
    case Granted => "granted"
    case Denied => "denied"
  }

  function ActionStatusName(s: ActionStatus): string
  {
    match s
    case Pending => "pending"
    case Success => "success"
    case Failed => "failed"
  }

  function ChannelName(c: LedgerChannel): string
  {
    match c
    case Api => "api"
    case Shortcut => "shortcut"
    case Manual => "manual"
  }

  function LedgerStatusName(s: LedgerStatus): string
  {
    match s
    case Sent => "sent"
    case Confirmed => "confirmed"
    case Failed => "failed"
  }

  function CategoryName(c: OpportunityCategory): string
  {
    match c
    case Safe => "safe"
    case Balanced => "balanced"
    case Aggressive => "aggressive"
  }

  /** Each enumeration has three values, and their stored texts are
      pairwise distinct, so the text determines the value. */
  lemma NamesDistinct(a: ConsentStatus, b: ConsentStatus, c: LedgerChannel, d: LedgerChannel,
                      e: LedgerStatus, f: LedgerStatus, g: ActionStatus, h: ActionStatus)
    ensures ConsentStatusName(a) == ConsentStatusName(b) ==> a == b
    ensures ChannelName(c) == ChannelName(d) ==> c == d
    ensures LedgerStatusName(e) == LedgerStatusName(f) ==> e == f
    ensures ActionStatusName(g) == ActionStatusName(h) ==> g == h
    ensures |{ConsentStatus.Pending, ConsentStatus.Granted, ConsentStatus.Denied}| == 3
    ensures |{LedgerChannel.Api, LedgerChannel.Shortcut, LedgerChannel.Manual}| == 3
  {
  }

  datatype User = User(id: string, username: string, password: string, fullName: string)

  datatype InsertUser = InsertUser(username: string, password: string, fullName: string)

  /** A stored session. The store always fills the lists, the revenue and
      the timestamps, so they are not optional here. */
  datatype Session = Session(
    id: string,
    userId: string,
    grantedScopes: seq<string>,
    appInventory: seq<string>,
    executedTasks: seq<Json.Value>,
    sessionRevenue: string,
    startTime: int,
    lastActionTime: int,
    isActive: bool)

  datatype InsertSession = InsertSession(
    userId: string,
    grantedScopes: Option<seq<string>>,
    appInventory: Option<seq<string>>,
    executedTasks: Option<seq<Json.Value>>,
    sessionRevenue: Option<string>,
    isActive: Option<bool>)

  /** A stored consent request. `action` and `parameters` are declared
      non-null, but the agent creates requests without them. */
  datatype ConsentRequest = ConsentRequest(
    id: string,
    sessionId: string,
    action: Option<string>,
    scope: string,
    parameters: Option<seq<Json.Field>>,
    dryRun: Option<bool>,
    dryRunResult: Option<Json.Value>,
    status: Option<ConsentStatus>,
    requestedAt: int,
    respondedAt: Option<int>)

  datatype InsertConsentRequest = InsertConsentRequest(
    sessionId: string,
    action: Option<string>,
    scope: string,
    parameters: Option<seq<Json.Field>>,
    dryRun: Option<bool>,
    dryRunResult: Option<Json.Value>,
    status: Option<ConsentStatus>)

  datatype Opportunity = Opportunity(
    id: string,
    title: string,
    description: string,
    category: OpportunityCategory,
    roiRange: string,
    timeEstimate: string,
    riskLevel: string,
    requiredScopes: Option<seq<string>>,
    isActive: Option<bool>)

  datatype InsertOpportunity = InsertOpportunity(
    title: string,
    description: string,
    category: OpportunityCategory,
    roiRange: string,
    timeEstimate: string,
    riskLevel: string,
    requiredScopes: Option<seq<string>>,
    isActive: Option<bool>)

  datatype Action = Action(
    id: string,
    sessionId: string,
    tool: string,
    args: seq<Json.Field>,
    status: Option<ActionStatus>,
    result: Option<Json.Value>,
    executedAt: int,
    dryRun: Option<bool>,
    requiresConsent: Option<bool>)

  datatype InsertAction = InsertAction(
    sessionId: string,
    tool: string,
    args: seq<Json.Field>,
    status: Option<ActionStatus>,
    result: Option<Json.Value>,
    dryRun: Option<bool>,
    requiresConsent: Option<bool>)

  datatype Token = Token(
    id: string,
    userId: string,
    provider: string,
    accessToken: string,
    refreshToken: Option<string>,
    expiresAt: Option<int>,
    createdAt: int,
    updatedAt: int)

  datatype InsertToken = InsertToken(
    userId: string,
    provider: string,
    accessToken: string,
    refreshToken: Option<string>,
    expiresAt: Option<int>)

  datatype LedgerEntry = LedgerEntry(
    id: string,
    userId: string,
    timestamp: int,
    action: string,
    channel: LedgerChannel,
    status: LedgerStatus,
    payload: seq<Json.Field>,
    result: Option<Json.Value>,
    hash: string)

  datatype InsertLedgerEntry = InsertLedgerEntry(
    userId: string,
    action: string,
    channel: LedgerChannel,
    status: LedgerStatus,
    payload: seq<Json.Field>,
    result: Option<Json.Value>,
    hash: string)

  /** The column defaults a database insert would apply to a consent
      request: dry run on, status pending. */
  function ConsentRequestDefaults(r: InsertConsentRequest): (d: InsertConsentRequest)
    ensures d.status == Some(r.status.GetOr(ConsentStatus.Pending))
    ensures d.dryRun == Some(r.dryRun.GetOr(true))
    ensures d.status.value == ConsentStatus.Pending <==> r.status.None? || r.status == Some(ConsentStatus.Pending)
    ensures d.(status := r.status, dryRun := r.dryRun) == r
  {
    r.(status := Some(r.status.GetOr(ConsentStatus.Pending)), dryRun := Some(r.dryRun.GetOr(true)))
  }

  /** The column defaults of an action: status pending, no dry run,
      consent required. */
  function ActionDefaults(a: InsertAction): (d: InsertAction)
    ensures d.status == Some(a.status.GetOr(ActionStatus.Pending))
    ensures d.dryRun == Some(a.dryRun.GetOr(false))
    ensures d.requiresConsent == Some(a.requiresConsent.GetOr(true))
    ensures a.status.None? && a.dryRun.None? && a.requiresConsent.None? ==>
              d.status == Some(ActionStatus.Pending) && d.dryRun == Some(false) && d.requiresConsent == Some(true)
    ensures d.(status := a.status, dryRun := a.dryRun, requiresConsent := a.requiresConsent) == a
  {
    a.(status := Some(a.status.GetOr(ActionStatus.Pending)),
       dryRun := Some(a.dryRun.GetOr(false)),
       requiresConsent := Some(a.requiresConsent.GetOr(true)))
  }

  /** Applying the defaults twice is the same as applying them once. */
  lemma DefaultsIdempotent(r: InsertConsentRequest, a: InsertAction)
    ensures ConsentRequestDefaults(ConsentRequestDefaults(r)) == ConsentRequestDefaults(r)
    ensures ActionDefaults(ActionDefaults(a)) == ActionDefaults(a)
  {
  }

  /** The validated body of a consent response. */
  datatype ConsentResponse = ConsentResponse(requestId: string, approved: bool)

  /** The validated body of a consent preview. */
  datatype ConsentPreview = ConsentPreview(action: string, scope: string, parameters: seq<Json.Field>, dryRun: bool)

  /** `consentResponseSchema.safeParse(body)`: an object whose `requestId`
      is a string and whose `approved` is a boolean; other keys are
      dropped. */
  function ParseConsentResponse(body: Json.Value): (r: Option<ConsentResponse>)
    ensures r.Some? <==> body.Obj? && Json.Get(body.fields, "requestId").Some? && Json.Get(body.fields, "requestId").value.Str?
                         && Json.Get(body.fields, "approved").Some? && Json.Get(body.fields, "approved").value.Bool?
    ensures r.Some? ==> Json.Get(body.fields, "requestId") == Some(Json.Str(r.value.requestId))
                        && Json.Get(body.fields, "approved") == Some(Json.Bool(r.value.approved))
  {
    if !body.Obj? then None
    else
      var requestId := Json.Get(body.fields, "requestId");
      var approved := Json.Get(body.fields, "approved");
      if requestId.Some? && requestId.value.Str? && approved.Some? && approved.value.Bool?
      then Some(ConsentResponse(requestId.value.s, approved.value.b))
      else None
  }

  /** `consentPreviewSchema.safeParse(body)`: `action` and `scope` strings,
      `parameters` an object, and `dryRun` a boolean that is true when the
      key is absent. */
  function ParseConsentPreview(body: Json.Value): (r: Option<ConsentPreview>)
    ensures r.Some? ==> body.Obj?
                        && Json.Get(body.fields, "action") == Some(Json.Str(r.value.action))
                        && Json.Get(body.fields, "scope") == Some(Json.Str(r.value.scope))
                        && Json.Get(body.fields, "parameters") == Some(Json.Obj(r.value.parameters))
    ensures r.Some? ==> (r.value.dryRun <==> Json.Get(body.fields, "dryRun") in {None, Some(Json.Bool(true))})
    ensures body.Obj? && Json.Get(body.fields, "dryRun").Some? && !Json.Get(body.fields, "dryRun").value.Bool? ==> r.None?
    ensures r.Some? <==> && body.Obj?
                         && Json.Get(body.fields, "action").Some? && Json.Get(body.fields, "action").value.Str?
                         && Json.Get(body.fields, "scope").Some? && Json.Get(body.fields, "scope").value.Str?
                         && Json.Get(body.fields, "parameters").Some? && Json.Get(body.fields, "parameters").value.Obj?
                         && (Json.Get(body.fields, "dryRun").None? || Json.Get(body.fields, "dryRun").value.Bool?)
  {
    if !body.Obj? then None
    else
      var action := Json.Get(body.fields, "action");
      var scope := Json.Get(body.fields, "scope");
      var parameters := Json.Get(body.fields, "parameters");
      var dryRun := Json.Get(body.fields, "dryRun");
      if && action.Some? && action.value.Str?
         && scope.Some? && scope.value.Str?
         && parameters.Some? && parameters.value.Obj?
         && (dryRun.None? || dryRun.value.Bool?)
      then Some(ConsentPreview(action.value.s, scope.value.s, parameters.value.fields, dryRun.None? || dryRun.value.b))
      else None
  }

  /** A preview written out as a request body, every key present. */
  function PreviewBody(p: ConsentPreview): Json.Value
  {
    Json.Obj([Json.Field("action", Json.Str(p.action)), Json.Field("scope", Json.Str(p.scope)),
              Json.Field("parameters", Json.Obj(p.parameters)), Json.Field("dryRun", Json.Bool(p.dryRun))])
  }

  /** Parsing gives back the preview a body was written from. */
  lemma PreviewRoundTrip(p: ConsentPreview)
    ensures ParseConsentPreview(PreviewBody(p)) == Some(p)
  {
    PreviewBodyFields(p);
  }

  /** Each key of a written-out preview finds its own value. */
  lemma PreviewBodyFields(p: ConsentPreview)
    ensures var fs := PreviewBody(p).fields;
            && Json.Get(fs, "action") == Some(Json.Str(p.action))
            && Json.Get(fs, "scope") == Some(Json.Str(p.scope))
            && Json.Get(fs, "parameters") == Some(Json.Obj(p.parameters))
            && Json.Get(fs, "dryRun") == Some(Json.Bool(p.dryRun))
  {
    var fs := PreviewBody(p).fields;
    PreviewKeysDistinct();
    Json.GetSkip(fs, "scope");
    Json.GetSkip(fs, "parameters");
    Json.GetSkip(fs[1..], "parameters");
    Json.GetSkip(fs, "dryRun");
    Json.GetSkip(fs[1..], "dryRun");
    Json.GetSkip(fs[1..][1..], "dryRun");
  }

  /** The four preview keys differ in their first letter. */
  lemma PreviewKeysDistinct()
    ensures "action" != "scope" && "action" != "parameters" && "action" != "dryRun"
    ensures "scope" != "parameters" && "scope" != "dryRun" && "parameters" != "dryRun"
  {
    assert "action"[0] != "scope"[0] && "action"[0] != "parameters"[0] && "action"[0] != "dryRun"[0];
    assert "scope"[0] != "parameters"[0] && "scope"[0] != "dryRun"[0] && "parameters"[0] != "dryRun"[0];
  }

  /** A preview body without `dryRun` is a dry run; a response body needs
      both of its keys. */
  lemma PreviewDefaultsToDryRun(action: string, scope: string)
    ensures var body := Json.Obj([Json.Field("action", Json.Str(action)), Json.Field("scope", Json.Str(scope)),
                                  Json.Field("parameters", Json.Obj([]))]);
            ParseConsentPreview(body) == Some(ConsentPreview(action, scope, [], true))
    ensures ParseConsentResponse(Json.Obj([Json.Field("requestId", Json.Str(action))])).None?
  {
    var body := Json.Obj([Json.Field("action", Json.Str(action)), Json.Field("scope", Json.Str(scope)),
                          Json.Field("parameters", Json.Obj([]))]);
    assert Json.Get(body.fields, "dryRun").None? by {
      assert "dryRun" !in Json.Keys(body.fields);
    }
    assert Json.Get(body.fields, "action") == Some(Json.Str(action));
    assert Json.Get(body.fields, "scope") == Some(Json.Str(scope)) by {
      assert body.fields[1..] == [Json.Field("scope", Json.Str(scope)), Json.Field("parameters", Json.Obj([]))];
    }
    assert Json.Get(body.fields, "parameters") == Some(Json.Obj([])) by {
      var tail := [Json.Field("parameters", Json.Obj([]))];
      assert body.fields[1..][1..] == tail;
      assert Json.Get(tail, "parameters") == Some(Json.Obj([]));
      assert Json.Get(body.fields[1..], "parameters") == Some(Json.Obj([]));
    }
    assert Json.Get([Json.Field("requestId", Json.Str(action))], "approved").None? by {
      assert "approved" !in Json.Keys([Json.Field("requestId", Json.Str(action))]);
    }
  }
}
