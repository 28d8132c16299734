/** `MemStorage` of server/storage.ts: seven insertion-ordered maps and the
    create, update, lookup, filter and delete operations over them. Every
    operation is a state transition `Store -> (Store, result)`; the fresh
    id a call would draw from `randomUUID()` and the instant it would read
    from `new Date()` are parameters. */
module Storage {
  import opened Wrappers
  import opened Schema
  import Json
  import Js
  import Tables
  import Utils

  type Table<T> = Tables.Table<T>

  datatype Store = Store(
    users: Table<User>,
    sessions: Table<Session>,
    consentRequests: Table<ConsentRequest>,
    opportunities: Table<Opportunity>,
    actions: Table<Action>,
    tokens: Table<Token>,
    ledgerEntries: Table<LedgerEntry>)

  const Empty: Store := Store([], [], [], [], [], [], [])

  /** No map holds a key twice. */
  predicate Valid(s: Store)
  {
    && Tables.Valid(s.users) && Tables.Valid(s.sessions) && Tables.Valid(s.consentRequests)
    && Tables.Valid(s.opportunities) && Tables.Valid(s.actions) && Tables.Valid(s.tokens)
    && Tables.Valid(s.ledgerEntries)
  }

  // ---------------------------------------------------------------- users

  function CreateUser(s: Store, ins: InsertUser, id: string): (r: (Store, User))
    ensures r.1 == User(id, ins.username, ins.password, ins.fullName)
    ensures Tables.Get(r.0.users, id) == Some(r.1)
    ensures forall k :: k != id ==> Tables.Get(r.0.users, k) == Tables.Get(s.users, k)
    ensures r.0 == s.(users := r.0.users)
  {
    var user := User(id, ins.username, ins.password, ins.fullName);
    (s.(users := Tables.Set(s.users, id, user)), user)
  }

  /** `getUserByUsername`: the first user, in insertion order, with that
      name. */
  function GetUserByUsername(s: Store, username: string): (r: Option<User>)
    ensures r.None? <==> forall i :: 0 <= i < |s.users| ==> s.users[i].value.username != username
    ensures r.Some? ==> r.value.username == username
                        && exists i :: && 0 <= i < |s.users| && s.users[i].value == r.value
                                       && forall j :: 0 <= j < i ==> s.users[j].value.username != username
  {
    Tables.Find(Tables.Values(s.users), (u: User) => u.username == username)
  }

  // ------------------------------------------------------------- sessions

  /** The keys of `Partial<Session>` that a caller may set. */
  datatype SessionPatch = SessionPatch(
    userId: Option<string>,
    grantedScopes: Option<seq<string>>,
    appInventory: Option<seq<string>>,
    executedTasks: Option<seq<Json.Value>>,
    sessionRevenue: Option<string>,
    startTime: Option<int>,
    lastActionTime: Option<int>,
    isActive: Option<bool>)

  const NoSessionChange: SessionPatch := SessionPatch(None, None, None, None, None, None, None, None)

  /** `{ ...session, ...updates }`: each key present in the patch
      overrides the stored value. */
  function MergeSession(x: Session, p: SessionPatch): (r: Session)
    ensures r.id == x.id
    ensures (p.userId.Some? ==> r.userId == p.userId.value) && (p.userId.None? ==> r.userId == x.userId)
    ensures (p.grantedScopes.Some? ==> r.grantedScopes == p.grantedScopes.value) && (p.grantedScopes.None? ==> r.grantedScopes == x.grantedScopes)
    ensures (p.appInventory.Some? ==> r.appInventory == p.appInventory.value) && (p.appInventory.None? ==> r.appInventory == x.appInventory)
    ensures (p.executedTasks.Some? ==> r.executedTasks == p.executedTasks.value) && (p.executedTasks.None? ==> r.executedTasks == x.executedTasks)
    ensures (p.sessionRevenue.Some? ==> r.sessionRevenue == p.sessionRevenue.value) && (p.sessionRevenue.None? ==> r.sessionRevenue == x.sessionRevenue)
    ensures (p.startTime.Some? ==> r.startTime == p.startTime.value) && (p.startTime.None? ==> r.startTime == x.startTime)
    ensures (p.lastActionTime.Some? ==> r.lastActionTime == p.lastActionTime.value) && (p.lastActionTime.None? ==> r.lastActionTime == x.lastActionTime)
    ensures (p.isActive.Some? ==> r.isActive == p.isActive.value) && (p.isActive.None? ==> r.isActive == x.isActive)
  {
    Session(x.id, p.userId.GetOr(x.userId), p.grantedScopes.GetOr(x.grantedScopes),
            p.appInventory.GetOr(x.appInventory), p.executedTasks.GetOr(x.executedTasks),
            p.sessionRevenue.GetOr(x.sessionRevenue), p.startTime.GetOr(x.startTime),
            p.lastActionTime.GetOr(x.lastActionTime), p.isActive.GetOr(x.isActive))
  }

  /** Merging is idempotent, and the empty patch changes nothing. */
  lemma MergeSessionIdempotent(x: Session, p: SessionPatch)
    ensures MergeSession(MergeSession(x, p), p) == MergeSession(x, p)
    ensures MergeSession(x, NoSessionChange) == x
  {
  }

  /** `createSession`: missing lists become `[]`, a missing or empty
      revenue becomes "0", the session is active, and its start and last
      action times are both `now`. */
  function CreateSession(s: Store, ins: InsertSession, id: string, now: int): (r: (Store, Session))
    ensures r.1.id == id && r.1.userId == ins.userId
    ensures r.1.isActive && r.1.startTime == now && r.1.lastActionTime == now
    ensures r.1.grantedScopes == (if ins.grantedScopes.Some? then ins.grantedScopes.value else [])
    ensures r.1.appInventory == (if ins.appInventory.Some? then ins.appInventory.value else [])
    ensures r.1.executedTasks == (if ins.executedTasks.Some? then ins.executedTasks.value else [])
    ensures r.1.sessionRevenue == (if ins.sessionRevenue.Some? && ins.sessionRevenue.value != "" then ins.sessionRevenue.value else "0")
    ensures r.1.sessionRevenue != ""
    ensures Tables.Get(r.0.sessions, id) == Some(r.1)
    ensures forall k :: k != id ==> Tables.Get(r.0.sessions, k) == Tables.Get(s.sessions, k)
    ensures r.0 == s.(sessions := r.0.sessions)
  {
    var revenue := match ins.sessionRevenue
      case Some(v) => if v == "" then "0" else v
      case None => "0";
    var session := Session(id, ins.userId, ins.grantedScopes.GetOr([]), ins.appInventory.GetOr([]),
                           ins.executedTasks.GetOr([]), revenue, now, now, true);
    (s.(sessions := Tables.Set(s.sessions, id, session)), session)
  }

  /** `updateSession`: an unknown id changes nothing and gives `None`;
      otherwise the patch is merged, the last action time becomes `now`
      whatever the patch says, the session keeps its id and position, and
      no other session changes. */
  function UpdateSession(s: Store, id: string, p: SessionPatch, now: int): (r: (Store, Option<Session>))
    ensures r.1.None? <==> id !in Tables.Ids(s.sessions)
    ensures r.1.None? ==> r.0 == s
    ensures r.1.Some? ==> r.1.value.lastActionTime == now && r.1.value.id == Tables.Get(s.sessions, id).value.id
                          && r.1.value == MergeSession(Tables.Get(s.sessions, id).value, p).(lastActionTime := now)
    ensures r.1.Some? ==> Tables.Get(r.0.sessions, id) == r.1 && Tables.Ids(r.0.sessions) == Tables.Ids(s.sessions)
    ensures forall k :: k != id ==> Tables.Get(r.0.sessions, k) == Tables.Get(s.sessions, k)
    ensures r.0 == s.(sessions := r.0.sessions)
  {
    match Tables.Get(s.sessions, id)
    case None => (s, None)
    case Some(prev) =>
      var updated := MergeSession(prev, p).(lastActionTime := now);
      Tables.SetKeys(s.sessions, id, updated);
      (s.(sessions := Tables.Set(s.sessions, id, updated)), Some(updated))
  }

  /** `getActiveSessionByUserId`: the first active session of that user. */
  function GetActiveSessionByUserId(s: Store, userId: string): (r: Option<Session>)
    ensures r.None? <==> forall i :: 0 <= i < |s.sessions| ==>
                           !(s.sessions[i].value.userId == userId && s.sessions[i].value.isActive)
    ensures r.Some? ==> r.value.userId == userId && r.value.isActive
                        && exists i :: && 0 <= i < |s.sessions| && s.sessions[i].value == r.value
                                       && forall j :: 0 <= j < i ==> !(s.sessions[j].value.userId == userId && s.sessions[j].value.isActive)
  {
    Tables.Find(Tables.Values(s.sessions), (x: Session) => x.userId == userId && x.isActive)
  }

  // ----------------------------------------------------- consent requests

  /** The keys of `Partial<ConsentRequest>` a caller may set; a
      `respondedAt` in the patch would always be overridden, so it is not
      one of them. */
  datatype ConsentPatch = ConsentPatch(
    sessionId: Option<string>,
    action: Option<string>,
    scope: Option<string>,
    parameters: Option<seq<Json.Field>>,
    dryRun: Option<bool>,
    dryRunResult: Option<Json.Value>,
    status: Option<ConsentStatus>,
    requestedAt: Option<int>)

  const NoConsentChange: ConsentPatch := ConsentPatch(None, None, None, None, None, None, None, None)

  /** `{ ...request, ...updates }`: a key present in the patch overrides,
      an absent one keeps the stored value; the id and `respondedAt` are
      not patchable. */
  function MergeConsent(x: ConsentRequest, p: ConsentPatch): (r: ConsentRequest)
    ensures r.id == x.id && r.respondedAt == x.respondedAt
    ensures (p.sessionId.Some? ==> r.sessionId == p.sessionId.value) && (p.sessionId.None? ==> r.sessionId == x.sessionId)
    ensures (p.action.Some? ==> r.action == p.action) && (p.action.None? ==> r.action == x.action)
    ensures (p.scope.Some? ==> r.scope == p.scope.value) && (p.scope.None? ==> r.scope == x.scope)
    ensures (p.parameters.Some? ==> r.parameters == p.parameters) && (p.parameters.None? ==> r.parameters == x.parameters)
    ensures (p.dryRun.Some? ==> r.dryRun == p.dryRun) && (p.dryRun.None? ==> r.dryRun == x.dryRun)
    ensures (p.dryRunResult.Some? ==> r.dryRunResult == p.dryRunResult) && (p.dryRunResult.None? ==> r.dryRunResult == x.dryRunResult)
    ensures (p.status.Some? ==> r.status == p.status) && (p.status.None? ==> r.status == x.status)
    ensures (p.requestedAt.Some? ==> r.requestedAt == p.requestedAt.value) && (p.requestedAt.None? ==> r.requestedAt == x.requestedAt)
  {
    ConsentRequest(x.id, p.sessionId.GetOr(x.sessionId),
                   if p.action.Some? then p.action else x.action,
                   p.scope.GetOr(x.scope),
                   if p.parameters.Some? then p.parameters else x.parameters,
                   if p.dryRun.Some? then p.dryRun else x.dryRun,
                   if p.dryRunResult.Some? then p.dryRunResult else x.dryRunResult,
                   if p.status.Some? then p.status else x.status,
                   p.requestedAt.GetOr(x.requestedAt), x.respondedAt)
  }

  lemma MergeConsentIdempotent(x: ConsentRequest, p: ConsentPatch)
    ensures MergeConsent(MergeConsent(x, p), p) == MergeConsent(x, p)
    ensures MergeConsent(x, NoConsentChange) == x
  {
  }

  /** `createConsentRequest`: the request as given, requested at `now`,
      not yet answered. */
  function CreateConsentRequest(s: Store, ins: InsertConsentRequest, id: string, now: int): (r: (Store, ConsentRequest))
    ensures r.1.id == id && r.1.sessionId == ins.sessionId && r.1.scope == ins.scope && r.1.status == ins.status
    ensures r.1.action == ins.action && r.1.parameters == ins.parameters
    ensures r.1.dryRun == ins.dryRun && r.1.dryRunResult == ins.dryRunResult
    ensures r.1.requestedAt == now && r.1.respondedAt.None?
    ensures Tables.Get(r.0.consentRequests, id) == Some(r.1)
    ensures forall k :: k != id ==> Tables.Get(r.0.consentRequests, k) == Tables.Get(s.consentRequests, k)
    ensures r.0 == s.(consentRequests := r.0.consentRequests)
  {
    var request := ConsentRequest(id, ins.sessionId, ins.action, ins.scope, ins.parameters, ins.dryRun,
                                  ins.dryRunResult, ins.status, now, None);
    (s.(consentRequests := Tables.Set(s.consentRequests, id, request)), request)
  }

  /** `updateConsentRequest`: an unknown id changes nothing; otherwise the
      patch is merged and `respondedAt` becomes `now` exactly when the
      patch carries a status (every status text is non-empty, so present
      means truthy), and keeps its old value otherwise. */
  function UpdateConsentRequest(s: Store, id: string, p: ConsentPatch, now: int): (r: (Store, Option<ConsentRequest>))
    ensures r.1.None? <==> id !in Tables.Ids(s.consentRequests)
    ensures r.1.None? ==> r.0 == s
    ensures r.1.Some? ==> var prev := Tables.Get(s.consentRequests, id).value;
                          && r.1.value.respondedAt == (if p.status.Some? then Some(now) else prev.respondedAt)
                          && r.1.value.(respondedAt := prev.respondedAt) == MergeConsent(prev, p)
    ensures r.1.Some? ==> Tables.Get(r.0.consentRequests, id) == r.1
                          && Tables.Ids(r.0.consentRequests) == Tables.Ids(s.consentRequests)
    ensures forall k :: k != id ==> Tables.Get(r.0.consentRequests, k) == Tables.Get(s.consentRequests, k)
    ensures r.0 == s.(consentRequests := r.0.consentRequests)
  {
    match Tables.Get(s.consentRequests, id)
    case None => (s, None)
    case Some(prev) =>
      var updated := MergeConsent(prev, p).(respondedAt := if p.status.Some? then Some(now) else prev.respondedAt);
      Tables.SetKeys(s.consentRequests, id, updated);
      (s.(consentRequests := Tables.Set(s.consentRequests, id, updated)), Some(updated))
  }

  /** `getConsentRequestsBySessionId`. */
  function GetConsentRequestsBySessionId(s: Store, sessionId: string): (r: seq<ConsentRequest>)
    ensures forall i :: 0 <= i < |r| ==> r[i].sessionId == sessionId
    ensures forall x :: x in r <==> x in Tables.Values(s.consentRequests) && x.sessionId == sessionId
  {
    var r := Tables.Filter(Tables.Values(s.consentRequests), (x: ConsentRequest) => x.sessionId == sessionId);
    assert forall x :: x in r <==> x in Tables.Values(s.consentRequests) && x.sessionId == sessionId by {
      forall x {
        Tables.FilterMembers(Tables.Values(s.consentRequests), (x: ConsentRequest) => x.sessionId == sessionId, x);
      }
    }
    r
  }

  /** `getPendingConsentRequests`: exactly the stored requests of that
      session whose status is pending, each once, in insertion order. */
  function GetPendingConsentRequests(s: Store, sessionId: string): (r: seq<ConsentRequest>)
    ensures forall i :: 0 <= i < |r| ==> r[i].sessionId == sessionId && r[i].status == Some(ConsentStatus.Pending)
    ensures forall x :: x in r <==> x in Tables.Values(s.consentRequests)
                                    && x.sessionId == sessionId && x.status == Some(ConsentStatus.Pending)
  {
    var p := (x: ConsentRequest) => x.sessionId == sessionId && x.status == Some(ConsentStatus.Pending);
    var r := Tables.Filter(Tables.Values(s.consentRequests), p);
    assert forall x :: x in r <==> x in Tables.Values(s.consentRequests) && p(x) by {
      forall x {
        Tables.FilterMembers(Tables.Values(s.consentRequests), p, x);
      }
    }
    r
  }

  // -------------------------------------------------------- opportunities

  function CreateOpportunity(s: Store, ins: InsertOpportunity, id: string): (r: (Store, Opportunity))
    ensures r.1 == Opportunity(id, ins.title, ins.description, ins.category, ins.roiRange,
                               ins.timeEstimate, ins.riskLevel, ins.requiredScopes, ins.isActive)
    ensures Tables.Get(r.0.opportunities, id) == Some(r.1)
    ensures forall k :: k != id ==> Tables.Get(r.0.opportunities, k) == Tables.Get(s.opportunities, k)
    ensures r.0 == s.(opportunities := r.0.opportunities)
  {
    var o := Opportunity(id, ins.title, ins.description, ins.category, ins.roiRange,
                         ins.timeEstimate, ins.riskLevel, ins.requiredScopes, ins.isActive);
    (s.(opportunities := Tables.Set(s.opportunities, id, o)), o)
  }

  /** `opp.isActive` as a condition: a missing flag counts as inactive. */
  predicate IsActive(o: Opportunity)
  {
    o.isActive == Some(true)
  }

  /** `getAllActiveOpportunities`. */
  function GetAllActiveOpportunities(s: Store): (r: seq<Opportunity>)
    ensures forall x :: x in r <==> x in Tables.Values(s.opportunities) && IsActive(x)
  {
    var r := Tables.Filter(Tables.Values(s.opportunities), IsActive);
    assert forall x :: x in r <==> x in Tables.Values(s.opportunities) && IsActive(x) by {
      forall x {
        Tables.FilterMembers(Tables.Values(s.opportunities), IsActive, x);
      }
    }
    r
  }

  /** `getOpportunitiesByCategory`: exactly the active opportunities of
      that category. */
  function GetOpportunitiesByCategory(s: Store, category: OpportunityCategory): (r: seq<Opportunity>)
    ensures forall i :: 0 <= i < |r| ==> r[i].category == category && IsActive(r[i])
    ensures forall x :: x in r <==> x in Tables.Values(s.opportunities) && x.category == category && IsActive(x)
  {
    var p := (x: Opportunity) => x.category == category && IsActive(x);
    var r := Tables.Filter(Tables.Values(s.opportunities), p);
    assert forall x :: x in r <==> x in Tables.Values(s.opportunities) && p(x) by {
      forall x {
        Tables.FilterMembers(Tables.Values(s.opportunities), p, x);
      }
    }
    r
  }

  // -------------------------------------------------------------- actions

  /** The keys of `Partial<Action>` a caller may set. */
  datatype ActionPatch = ActionPatch(
    sessionId: Option<string>,
    tool: Option<string>,
    args: Option<seq<Json.Field>>,
    status: Option<ActionStatus>,
    result: Option<Json.Value>,
    executedAt: Option<int>,
    dryRun: Option<bool>,
    requiresConsent: Option<bool>)

  const NoActionChange: ActionPatch := ActionPatch(None, None, None, None, None, None, None, None)

  /** `{ ...action, ...updates }`: a key present in the patch overrides,
      an absent one keeps the stored value; the id is not patchable. */
  function MergeAction(x: Action, p: ActionPatch): (r: Action)
    ensures r.id == x.id
    ensures (p.sessionId.Some? ==> r.sessionId == p.sessionId.value) && (p.sessionId.None? ==> r.sessionId == x.sessionId)
    ensures (p.tool.Some? ==> r.tool == p.tool.value) && (p.tool.None? ==> r.tool == x.tool)
    ensures (p.args.Some? ==> r.args == p.args.value) && (p.args.None? ==> r.args == x.args)
    ensures (p.status.Some? ==> r.status == p.status) && (p.status.None? ==> r.status == x.status)
    ensures (p.result.Some? ==> r.result == p.result) && (p.result.None? ==> r.result == x.result)
    ensures (p.executedAt.Some? ==> r.executedAt == p.executedAt.value) && (p.executedAt.None? ==> r.executedAt == x.executedAt)
    ensures (p.dryRun.Some? ==> r.dryRun == p.dryRun) && (p.dryRun.None? ==> r.dryRun == x.dryRun)
    ensures (p.requiresConsent.Some? ==> r.requiresConsent == p.requiresConsent) && (p.requiresConsent.None? ==> r.requiresConsent == x.requiresConsent)
  {
    Action(x.id, p.sessionId.GetOr(x.sessionId), p.tool.GetOr(x.tool), p.args.GetOr(x.args),
           if p.status.Some? then p.status else x.status,
           if p.result.Some? then p.result else x.result,
           p.executedAt.GetOr(x.executedAt),
           if p.dryRun.Some? then p.dryRun else x.dryRun,
           if p.requiresConsent.Some? then p.requiresConsent else x.requiresConsent)
  }

  lemma MergeActionIdempotent(x: Action, p: ActionPatch)
    ensures MergeAction(MergeAction(x, p), p) == MergeAction(x, p)
    ensures MergeAction(x, NoActionChange) == x
  {
  }

  /** `createAction`: the action as given, stamped with `now`. */
  function CreateAction(s: Store, ins: InsertAction, id: string, now: int): (r: (Store, Action))
    ensures r.1 == Action(id, ins.sessionId, ins.tool, ins.args, ins.status, ins.result, now,
                          ins.dryRun, ins.requiresConsent)
    ensures Tables.Get(r.0.actions, id) == Some(r.1)
    ensures forall k :: k != id ==> Tables.Get(r.0.actions, k) == Tables.Get(s.actions, k)
    ensures r.0 == s.(actions := r.0.actions)
  {
    var a := Action(id, ins.sessionId, ins.tool, ins.args, ins.status, ins.result, now,
                    ins.dryRun, ins.requiresConsent);
    (s.(actions := Tables.Set(s.actions, id, a)), a)
  }

  /** `updateAction`: an unknown id changes nothing; otherwise a plain
      merge with no timestamp refresh. */
  function UpdateAction(s: Store, id: string, p: ActionPatch): (r: (Store, Option<Action>))
    ensures r.1.None? <==> id !in Tables.Ids(s.actions)
    ensures r.1.None? ==> r.0 == s
    ensures r.1.Some? ==> r.1.value == MergeAction(Tables.Get(s.actions, id).value, p)
                          && Tables.Get(r.0.actions, id) == r.1
                          && Tables.Ids(r.0.actions) == Tables.Ids(s.actions)
    ensures forall k :: k != id ==> Tables.Get(r.0.actions, k) == Tables.Get(s.actions, k)
    ensures r.0 == s.(actions := r.0.actions)
  {
    match Tables.Get(s.actions, id)
    case None => (s, None)
    case Some(prev) =>
      var updated := MergeAction(prev, p);
      Tables.SetKeys(s.actions, id, updated);
      (s.(actions := Tables.Set(s.actions, id, updated)), Some(updated))
  }

  /** `getActionsBySessionId`. */
  function GetActionsBySessionId(s: Store, sessionId: string): (r: seq<Action>)
    ensures forall x :: x in r <==> x in Tables.Values(s.actions) && x.sessionId == sessionId
  {
    var p := (x: Action) => x.sessionId == sessionId;
    var r := Tables.Filter(Tables.Values(s.actions), p);
    assert forall x :: x in r <==> x in Tables.Values(s.actions) && p(x) by {
      forall x {
        Tables.FilterMembers(Tables.Values(s.actions), p, x);
      }
    }
    r
  }

  // --------------------------------------------------------------- tokens

  /** The keys of `Partial<Token>` a caller may set; `updatedAt` is always
      overridden, so it is not one of them. */
  datatype TokenPatch = TokenPatch(
    userId: Option<string>,
    provider: Option<string>,
    accessToken: Option<string>,
    refreshToken: Option<string>,
    expiresAt: Option<int>,
    createdAt: Option<int>)

  /** `{ ...token, ...updates }`: a key present in the patch overrides,
      an absent one keeps the stored value; the id is not patchable and
      `updatedAt` is left to the caller. */
  function MergeToken(x: Token, p: TokenPatch): (r: Token)
    ensures r.id == x.id && r.updatedAt == x.updatedAt
    ensures (p.userId.Some? ==> r.userId == p.userId.value) && (p.userId.None? ==> r.userId == x.userId)
    ensures (p.provider.Some? ==> r.provider == p.provider.value) && (p.provider.None? ==> r.provider == x.provider)
    ensures (p.accessToken.Some? ==> r.accessToken == p.accessToken.value) && (p.accessToken.None? ==> r.accessToken == x.accessToken)
    ensures (p.refreshToken.Some? ==> r.refreshToken == p.refreshToken) && (p.refreshToken.None? ==> r.refreshToken == x.refreshToken)
    ensures (p.expiresAt.Some? ==> r.expiresAt == p.expiresAt) && (p.expiresAt.None? ==> r.expiresAt == x.expiresAt)
    ensures (p.createdAt.Some? ==> r.createdAt == p.createdAt.value) && (p.createdAt.None? ==> r.createdAt == x.createdAt)
  {
    Token(x.id, p.userId.GetOr(x.userId), p.provider.GetOr(x.provider), p.accessToken.GetOr(x.accessToken),
          if p.refreshToken.Some? then p.refreshToken else x.refreshToken,
          if p.expiresAt.Some? then p.expiresAt else x.expiresAt,
          p.createdAt.GetOr(x.createdAt), x.updatedAt)
  }

  lemma MergeTokenIdempotent(x: Token, p: TokenPatch)
    ensures MergeToken(MergeToken(x, p), p) == MergeToken(x, p)
  {
  }

  /** `getTokenByUserAndProvider`: the first token for that pair. */
  function GetTokenByUserAndProvider(s: Store, userId: string, provider: string): (r: Option<Token>)
    ensures r.None? <==> forall i :: 0 <= i < |s.tokens| ==>
                           !(s.tokens[i].value.userId == userId && s.tokens[i].value.provider == provider)
    ensures r.Some? ==> r.value.userId == userId && r.value.provider == provider
                        && exists i :: && 0 <= i < |s.tokens| && s.tokens[i].value == r.value
                                       && forall j :: 0 <= j < i ==> !(s.tokens[j].value.userId == userId && s.tokens[j].value.provider == provider)
  {
    Tables.Find(Tables.Values(s.tokens), (x: Token) => x.userId == userId && x.provider == provider)
  }

  /** `getTokensByUserId`. */
  function GetTokensByUserId(s: Store, userId: string): (r: seq<Token>)
    ensures forall x :: x in r <==> x in Tables.Values(s.tokens) && x.userId == userId
  {
    var p := (x: Token) => x.userId == userId;
    var r := Tables.Filter(Tables.Values(s.tokens), p);
    assert forall x :: x in r <==> x in Tables.Values(s.tokens) && p(x) by {
      forall x {
        Tables.FilterMembers(Tables.Values(s.tokens), p, x);
      }
    }
    r
  }

  /** `createToken`: created and updated at the same instant. */
  function CreateToken(s: Store, ins: InsertToken, id: string, now: int): (r: (Store, Token))
    ensures r.1 == Token(id, ins.userId, ins.provider, ins.accessToken, ins.refreshToken, ins.expiresAt, now, now)
    ensures Tables.Get(r.0.tokens, id) == Some(r.1)
    ensures forall k :: k != id ==> Tables.Get(r.0.tokens, k) == Tables.Get(s.tokens, k)
    ensures r.0 == s.(tokens := r.0.tokens)
  {
    var t := Token(id, ins.userId, ins.provider, ins.accessToken, ins.refreshToken, ins.expiresAt, now, now);
    (s.(tokens := Tables.Set(s.tokens, id, t)), t)
  }

  /** `updateToken`: throws "Token not found" for an unknown id; otherwise
      merges the patch and refreshes `updatedAt`. */
  function UpdateToken(s: Store, id: string, p: TokenPatch, now: int): (r: Result<(Store, Token)>)
    ensures r.Err? <==> id !in Tables.Ids(s.tokens)
    ensures r.Err? ==> r.message == "Token not found"
    ensures r.Ok? ==> var (s', t) := r.value;
                      && t.updatedAt == now
                      && t.(updatedAt := Tables.Get(s.tokens, id).value.updatedAt) == MergeToken(Tables.Get(s.tokens, id).value, p)
                      && Tables.Get(s'.tokens, id) == Some(t)
                      && Tables.Ids(s'.tokens) == Tables.Ids(s.tokens)
                      && (forall k :: k != id ==> Tables.Get(s'.tokens, k) == Tables.Get(s.tokens, k))
                      && s' == s.(tokens := s'.tokens)
  {
    match Tables.Get(s.tokens, id)
    case None => Err("Token not found")
    case Some(prev) =>
      var updated := MergeToken(prev, p).(updatedAt := now);
      Tables.SetKeys(s.tokens, id, updated);
      Ok((s.(tokens := Tables.Set(s.tokens, id, updated)), updated))
  }

  /** `deleteToken`: true exactly when the id was present; only that
      token goes. */
  function DeleteToken(s: Store, id: string): (r: (Store, bool))
    ensures r.1 <==> id !in Tables.Ids(r.0.tokens) && id in Tables.Ids(s.tokens)
    ensures id !in Tables.Ids(r.0.tokens)
    ensures forall k :: k != id ==> Tables.Get(r.0.tokens, k) == Tables.Get(s.tokens, k)
    ensures !r.1 ==> r.0 == s
    ensures r.0 == s.(tokens := r.0.tokens)
  {
    var (t, existed) := Tables.Delete(s.tokens, id);
    (s.(tokens := t), existed)
  }

  // ------------------------------------------------------- ledger entries

  /** `createLedgerEntry`: the entry as given, stamped with the store's
      own `now`. */
  function CreateLedgerEntry(s: Store, ins: InsertLedgerEntry, id: string, now: int): (r: (Store, LedgerEntry))
    ensures r.1 == LedgerEntry(id, ins.userId, now, ins.action, ins.channel, ins.status, ins.payload, ins.result, ins.hash)
    ensures Tables.Get(r.0.ledgerEntries, id) == Some(r.1)
    ensures forall k :: k != id ==> Tables.Get(r.0.ledgerEntries, k) == Tables.Get(s.ledgerEntries, k)
    ensures r.0 == s.(ledgerEntries := r.0.ledgerEntries)
  {
    var e := LedgerEntry(id, ins.userId, now, ins.action, ins.channel, ins.status, ins.payload, ins.result, ins.hash);
    (s.(ledgerEntries := Tables.Set(s.ledgerEntries, id, e)), e)
  }

  /** Newest first. */
  predicate SortedByTimeDesc(es: seq<LedgerEntry>)
  {
    forall i, j :: 0 <= i < j < |es| ==> es[i].timestamp >= es[j].timestamp
  }

  /** Places `x` after every entry at least as new, before the first older
      one. */
  function InsertByTime(x: LedgerEntry, es: seq<LedgerEntry>): (r: seq<LedgerEntry>)
    ensures multiset(r) == multiset(es) + multiset{x}
  {
    if |es| == 0 then [x]
    else if es[0].timestamp < x.timestamp then [x] + es
    else
      assert es == [es[0]] + es[1..];
      [es[0]] + InsertByTime(x, es[1..])
  }

  /** Inserting into a newest-first sequence keeps it newest first. */
  lemma {:induction false} InsertSorted(x: LedgerEntry, es: seq<LedgerEntry>)
    requires SortedByTimeDesc(es)
    ensures SortedByTimeDesc(InsertByTime(x, es))
  {
    if |es| == 0 {
    } else if es[0].timestamp < x.timestamp {
      ConsSorted(x, es);
    } else {
      var tail := es[1..];
      InsertSorted(x, tail);
      assert NoNewerThan(tail, es[0].timestamp) by {
        forall i | 0 <= i < |tail| ensures tail[i].timestamp <= es[0].timestamp {
          assert tail[i] == es[i + 1];
        }
      }
      InsertBounded(x, tail, es[0].timestamp);
      ConsSorted(es[0], InsertByTime(x, tail));
      assert InsertByTime(x, es) == [es[0]] + InsertByTime(x, tail);
    }
  }

  /** Every entry is at most as new as `b`. */
  predicate NoNewerThan(es: seq<LedgerEntry>, b: int)
  {
    forall i :: 0 <= i < |es| ==> es[i].timestamp <= b
  }

  /** Inserting an entry no newer than `b` among entries no newer than `b`
      leaves every entry no newer than `b`. */
  lemma {:induction false} InsertBounded(x: LedgerEntry, es: seq<LedgerEntry>, b: int)
    requires x.timestamp <= b && NoNewerThan(es, b)
    ensures NoNewerThan(InsertByTime(x, es), b)
  {
    var r := InsertByTime(x, es);
    if |es| == 0 {
      assert r == [x];
    } else if es[0].timestamp < x.timestamp {
      assert r == [x] + es;
      forall i | 0 <= i < |r| ensures r[i].timestamp <= b {
        if i > 0 { assert r[i] == es[i - 1]; }
      }
    } else {
      var tail := es[1..];
      assert NoNewerThan(tail, b) by {
        forall i | 0 <= i < |tail| ensures tail[i].timestamp <= b {
          assert tail[i] == es[i + 1];
        }
      }
      InsertBounded(x, tail, b);
      var rest := InsertByTime(x, tail);
      assert r == [es[0]] + rest;
      forall i | 0 <= i < |r| ensures r[i].timestamp <= b {
        if i > 0 { assert r[i] == rest[i - 1]; }
      }
    }
  }

  /** A newest-first sequence stays newest first under a head at least as
      new as all of it. */
  lemma ConsSorted(h: LedgerEntry, rest: seq<LedgerEntry>)
    requires SortedByTimeDesc(rest) && NoNewerThan(rest, h.timestamp)
    ensures SortedByTimeDesc([h] + rest)
  {
    var r := [h] + rest;
    assert forall i :: 1 <= i < |r| ==> r[i] == rest[i - 1];
  }

  /** `entries.sort((a, b) => b.timestamp - a.timestamp)`, stable: an
      insertion sort that keeps equal timestamps in input order. */
  function SortByTimeDesc(es: seq<LedgerEntry>): (r: seq<LedgerEntry>)
    ensures SortedByTimeDesc(r)
    ensures multiset(r) == multiset(es)
  {
    if |es| == 0 then []
    else
      assert es == es[..|es| - 1] + [es[|es| - 1]];
      var init := SortByTimeDesc(es[..|es| - 1]);
      InsertSorted(es[|es| - 1], init);
      InsertByTime(es[|es| - 1], init)
  }

  /** The entries carrying timestamp `t`. */
  function AtTime(es: seq<LedgerEntry>, t: int): seq<LedgerEntry>
  {
    Tables.Filter(es, (e: LedgerEntry) => e.timestamp == t)
  }

  /** In a newest-first sequence that starts older than `t`, nothing has
      timestamp `t` or newer. */
  lemma {:induction false} NoneAtTime(es: seq<LedgerEntry>, t: int)
    requires forall i :: 0 <= i < |es| ==> es[i].timestamp < t
    ensures AtTime(es, t) == []
  {
    if |es| > 0 {
      NoneAtTime(es[1..], t);
    }
  }

  /** Inserting keeps entries of equal time in order and puts the new one
      after them. */
  lemma {:induction false} InsertKeepsTies(x: LedgerEntry, es: seq<LedgerEntry>, t: int)
    requires SortedByTimeDesc(es)
    ensures AtTime(InsertByTime(x, es), t) == AtTime(es, t) + (if x.timestamp == t then [x] else [])
  {
    if |es| == 0 {
    } else if es[0].timestamp < x.timestamp {
      var r := [x] + es;
      assert r[1..] == es;
      if x.timestamp == t {
        NoneAtTime(es, t);
      }
    } else {
      InsertKeepsTies(x, es[1..], t);
      var r := [es[0]] + InsertByTime(x, es[1..]);
      assert r[1..] == InsertByTime(x, es[1..]);
    }
  }

  /** The sort is stable: for every timestamp, the entries carrying it
      appear in the same order before and after sorting. */
  lemma {:induction false} SortIsStable(es: seq<LedgerEntry>, t: int)
    ensures AtTime(SortByTimeDesc(es), t) == AtTime(es, t)
  {
    if |es| > 0 {
      var init := es[..|es| - 1];
      var x := es[|es| - 1];
      var tail: seq<LedgerEntry> := if x.timestamp == t then [x] else [];
      assert es == init + [x];
      SortIsStable(init, t);
      InsertKeepsTies(x, SortByTimeDesc(init), t);
      assert SortByTimeDesc(es) == InsertByTime(x, SortByTimeDesc(init));
      assert AtTime(SortByTimeDesc(es), t) == AtTime(init, t) + tail;
      Tables.FilterConcat(init, [x], (e: LedgerEntry) => e.timestamp == t);
      assert AtTime([x], t) == tail;
    }
  }

  /** `Array.prototype.slice(0, end)` is a prefix. */
  lemma SliceFromZero<T>(s: seq<T>, end: int)
    ensures Js.Slice(s, 0, end) == s[..Js.SliceIndex(end, |s|)]
  {
  }

  const DefaultLedgerLimit: int := 50

  /** The entries of one user, in insertion order. */
  function UserEntries(s: Store, userId: string): (r: seq<LedgerEntry>)
    ensures forall e :: e in r <==> e in Tables.Values(s.ledgerEntries) && e.userId == userId
    ensures |r| <= |s.ledgerEntries|
  {
    var p := (e: LedgerEntry) => e.userId == userId;
    var r := Tables.Filter(Tables.Values(s.ledgerEntries), p);
    assert forall e :: e in r <==> e in Tables.Values(s.ledgerEntries) && p(e) by {
      forall e {
        Tables.FilterMembers(Tables.Values(s.ledgerEntries), p, e);
      }
    }
    r
  }

  /** A prefix of a sorted sequence is sorted and holds only its
      elements. */
  lemma SortedPrefix(es: seq<LedgerEntry>, k: nat)
    requires k <= |es| && SortedByTimeDesc(es)
    ensures SortedByTimeDesc(es[..k])
    ensures forall e :: e in es[..k] ==> e in multiset(es)
  {
    assert forall i :: 0 <= i < k ==> es[..k][i] == es[i];
  }

  /** `getLedgerEntriesByUserId(userId, limit = 50)`: that user's entries,
      newest first, at most `limit` of them for a non-negative limit (a
      negative one drops that many from the end, as `slice` does). */
  function GetLedgerEntriesByUserId(s: Store, userId: string, limit: Option<int>): (r: seq<LedgerEntry>)
    ensures forall e :: e in r ==> e in Tables.Values(s.ledgerEntries) && e.userId == userId
    ensures SortedByTimeDesc(r)
    ensures |r| == Js.SliceIndex(limit.GetOr(DefaultLedgerLimit), |UserEntries(s, userId)|)
  {
    var mine := UserEntries(s, userId);
    var sorted := SortByTimeDesc(mine);
    SortKeepsLength(mine);
    var k := Js.SliceIndex(limit.GetOr(DefaultLedgerLimit), |sorted|);
    SliceFromZero(sorted, limit.GetOr(DefaultLedgerLimit));
    SortedPrefix(sorted, k);
    sorted[..k]
  }

  /** Sorting keeps the number of entries. */
  lemma SortKeepsLength(es: seq<LedgerEntry>)
    ensures |SortByTimeDesc(es)| == |es|
  {
    assert |multiset(SortByTimeDesc(es))| == |multiset(es)|;
  }

  /** The query keeps the newest of the user's entries: what it returns is
      drawn from them, `limit` of them when there are that many (for a
      non-negative limit), and no entry it leaves out is newer than any
      it returns. */
  lemma LedgerQueryNewest(s: Store, userId: string, limit: Option<int>)
    ensures var r, mine := GetLedgerEntriesByUserId(s, userId, limit), UserEntries(s, userId);
            var n := limit.GetOr(DefaultLedgerLimit);
            && multiset(r) <= multiset(mine)
            && (n >= 0 ==> |r| == Utils.Min(n, |mine|))
            && forall e: LedgerEntry, i :: e in multiset(mine) - multiset(r) && 0 <= i < |r| ==> e.timestamp <= r[i].timestamp
  {
    var mine := UserEntries(s, userId);
    var sorted := SortByTimeDesc(mine);
    var k := Js.SliceIndex(limit.GetOr(DefaultLedgerLimit), |sorted|);
    assert GetLedgerEntriesByUserId(s, userId, limit) == sorted[..k];
    PrefixIsNewest(sorted, k);
  }

  /** The first `k` of a newest-first sequence are its newest: it holds
      them, and everything else in it is no newer than any of them. */
  lemma PrefixIsNewest(sorted: seq<LedgerEntry>, k: nat)
    requires k <= |sorted| && SortedByTimeDesc(sorted)
    ensures multiset(sorted[..k]) <= multiset(sorted)
    ensures forall e: LedgerEntry, i :: e in multiset(sorted) - multiset(sorted[..k]) && 0 <= i < k ==>
              e.timestamp <= sorted[..k][i].timestamp
  {
    var r := sorted[..k];
    Utils.SplitAt(sorted, k);
    assert multiset(sorted) == multiset(r) + multiset(sorted[k..]);
    forall e: LedgerEntry, i | e in multiset(sorted) - multiset(r) && 0 <= i < k ensures e.timestamp <= r[i].timestamp {
      assert e in sorted[k..];
      var j :| 0 <= j < |sorted[k..]| && sorted[k..][j] == e;
      assert sorted[k + j] == e && r[i] == sorted[i];
    }
  }

  /** With a limit at least the user's entry count, the query returns every
      one of that user's entries, each once. */
  lemma LedgerQueryComplete(s: Store, userId: string, limit: int)
    requires limit >= |s.ledgerEntries|
    ensures multiset(GetLedgerEntriesByUserId(s, userId, Some(limit))) == multiset(UserEntries(s, userId))
  {
    var mine := UserEntries(s, userId);
    var sorted := SortByTimeDesc(mine);
    assert |sorted| == |mine| by {
      assert |multiset(sorted)| == |multiset(mine)|;
    }
    assert sorted[..Js.SliceIndex(limit, |sorted|)] == sorted;
  }

  // -------------------------------------------------------- initial state

  const SafeSeed: InsertOpportunity := InsertOpportunity(
    "Affiliate Quick Win", "Promote existing partnerships through automated email sequences",
    OpportunityCategory.Safe, "$500-2K ROI", "2-4 hours", "Low risk",
    Some(["email.send", "contacts.read"]), Some(true))

  const BalancedSeed: InsertOpportunity := InsertOpportunity(
    "Digital Course Launch", "Create micro-course from existing expertise, automate delivery",
    OpportunityCategory.Balanced, "$2K-8K ROI", "1-2 weeks", "Medium risk",
    Some(["files.create", "payment.process", "calendar.write"]), Some(true))

  const AggressiveSeed: InsertOpportunity := InsertOpportunity(
    "AI SaaS Tool", "Develop niche AI tool, implement subscription model with API monetization",
    OpportunityCategory.Aggressive, "$10K+ ROI", "2-3 months", "High risk",
    Some(["bank.transfer", "api.create", "domain.manage"]), Some(true))

  const DefaultUser: InsertUser := InsertUser("eldario", "sovereign", "El Dario Stephon Bernard Bey")

  /** The store after `initializeDefaultData`: the default user, then the
      three opportunities in order. */
  function Seeded(userId: string, safeId: string, balancedId: string, aggressiveId: string): (s: Store)
    ensures Tables.Get(s.users, userId) == Some(User(userId, "eldario", "sovereign", "El Dario Stephon Bernard Bey"))
    ensures s.sessions == [] && s.consentRequests == [] && s.actions == [] && s.tokens == [] && s.ledgerEntries == []
  {
    var s1 := CreateUser(Empty, DefaultUser, userId).0;
    var s2 := CreateOpportunity(s1, SafeSeed, safeId).0;
    var s3 := CreateOpportunity(s2, BalancedSeed, balancedId).0;
    CreateOpportunity(s3, AggressiveSeed, aggressiveId).0
  }

  /** With distinct ids the seeded store holds the three opportunities in
      creation order, one active opportunity per category. */
  lemma SeededOpportunities(userId: string, a: string, b: string, c: string)
    requires a != b && b != c && a != c
    ensures var s := Seeded(userId, a, b, c);
            && |s.opportunities| == 3
            && s.opportunities[0].id == a && s.opportunities[1].id == b && s.opportunities[2].id == c
            && s.opportunities[0].value.category == OpportunityCategory.Safe
            && s.opportunities[1].value.category == OpportunityCategory.Balanced
            && s.opportunities[2].value.category == OpportunityCategory.Aggressive
            && IsActive(s.opportunities[0].value) && IsActive(s.opportunities[1].value)
            && IsActive(s.opportunities[2].value)
  {
    var s1 := CreateUser(Empty, DefaultUser, userId).0;
    var (s2, oa) := CreateOpportunity(s1, SafeSeed, a);
    var (s3, ob) := CreateOpportunity(s2, BalancedSeed, b);
    var (s4, oc) := CreateOpportunity(s3, AggressiveSeed, c);
    assert s4.opportunities == Tables.Set(Tables.Set(Tables.Set([], a, oa), b, ob), c, oc);
    Tables.SetThree(a, oa, b, ob, c, oc);
  }

  /** The seeded user is found by its name. */
  lemma SeededUserFound(userId: string, a: string, b: string, c: string)
    ensures GetUserByUsername(Seeded(userId, a, b, c), "eldario")
         == Some(User(userId, "eldario", "sovereign", "El Dario Stephon Bernard Bey"))
  {
    var s := Seeded(userId, a, b, c);
    assert s.users == [Tables.Row(userId, User(userId, "eldario", "sovereign", "El Dario Stephon Bernard Bey"))];
  }
}
