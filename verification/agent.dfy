/** `SovereignAgent` of server/services/agent.ts: an in-memory map of agent
    sessions kept beside the store, the consent-scope operations that keep
    the two in step, the mock tool dispatch, and the text and voice
    pipelines. The speech-to-text, language-model and text-to-speech calls
    are parameters carrying their outcome (a value or the error they
    throw); fresh ids are drawn from a sequence `uuids` of UUIDs. */
module Agent {
  import opened Wrappers
  import opened Schema
  import Json
  import Js
  import Tables
  import Utils
  import Storage

  type Store = Storage.Store

  datatype AgentSession = AgentSession(
    sessionId: string,
    userId: string,
    grantedScopes: seq<string>,
    executedTasks: seq<Json.Value>,
    revenue: string)

  /** The agent: the store it writes through and its own session map. */
  datatype Agent = Agent(store: Store, sessions: Tables.Table<AgentSession>)

  const SessionNotFound: string := "Session not found"
  const UserNotFound: string := "User not found"
  const ConsentNotFound: string := "Consent request not found"

  /** `createSession(userId)`: a stored session with empty lists and
      revenue "0", mirrored into the agent's map under the same id. */
  function CreateSession(a: Agent, userId: string, id: string, now: int): (r: (Agent, AgentSession))
    ensures r.1 == AgentSession(id, userId, [], [], "0")
    ensures Tables.Get(r.0.sessions, id) == Some(r.1)
    ensures Tables.Get(r.0.store.sessions, id) == Some(Session(id, userId, [], [], [], "0", now, now, true))
    ensures forall k :: k != id ==> (Tables.Get(r.0.sessions, k) == Tables.Get(a.sessions, k)
                                     && Tables.Get(r.0.store.sessions, k) == Tables.Get(a.store.sessions, k))
    ensures r.0.store == a.store.(sessions := r.0.store.sessions)
  {
    var (store, session) := Storage.CreateSession(a.store, InsertSession(userId, Some([]), Some([]), Some([]), Some("0"), Some(true)), id, now);
    var agentSession := AgentSession(session.id, session.userId, session.grantedScopes, session.executedTasks, session.sessionRevenue);
    (Agent(store, Tables.Set(a.sessions, session.id, agentSession)), agentSession)
  }

  // ------------------------------------------------------- consent scopes

  /** `requestConsentScope(sessionId, scope)`: a pending request for that
      scope, with no action or parameters. */
  function RequestConsentScope(a: Agent, sessionId: string, scope: string, id: string, now: int): (r: (Agent, ConsentRequest))
    ensures r.1 == ConsentRequest(id, sessionId, None, scope, None, None, None, Some(ConsentStatus.Pending), now, None)
    ensures Tables.Get(r.0.store.consentRequests, id) == Some(r.1)
    ensures r.0 == a.(store := a.store.(consentRequests := r.0.store.consentRequests))
  {
    var (store, request) := Storage.CreateConsentRequest(a.store, PendingRequest(sessionId, scope), id, now);
    (a.(store := store), request)
  }

  /** The request the agent files for a scope. */
  function PendingRequest(sessionId: string, scope: string): InsertConsentRequest
  {
    InsertConsentRequest(sessionId, None, scope, None, None, None, Some(ConsentStatus.Pending))
  }

  /** Sets the granted scopes of a session in the store and, when the agent
      holds that session, in its own map too. */
  function SetScopes(a: Agent, sessionId: string, scopes: seq<string>, now: int): (r: Agent)
    requires sessionId in Tables.Ids(a.store.sessions)
    ensures Tables.Get(r.store.sessions, sessionId).Some?
    ensures Tables.Get(r.store.sessions, sessionId).value.grantedScopes == scopes
    ensures Tables.Get(r.store.sessions, sessionId).value.lastActionTime == now
    ensures Tables.Get(r.sessions, sessionId).Some? <==> Tables.Get(a.sessions, sessionId).Some?
    ensures Tables.Get(r.sessions, sessionId).Some? ==>
              Tables.Get(r.sessions, sessionId).value == Tables.Get(a.sessions, sessionId).value.(grantedScopes := scopes)
    ensures forall k :: k != sessionId ==> (Tables.Get(r.sessions, k) == Tables.Get(a.sessions, k)
                                            && Tables.Get(r.store.sessions, k) == Tables.Get(a.store.sessions, k))
    ensures r.store == a.store.(sessions := r.store.sessions)
  {
    var store := Storage.UpdateSession(a.store, sessionId, Storage.NoSessionChange.(grantedScopes := Some(scopes)), now).0;
    match Tables.Get(a.sessions, sessionId)
    case None => Agent(store, a.sessions)
    case Some(s) => Agent(store, Tables.Set(a.sessions, sessionId, s.(grantedScopes := scopes)))
  }

  /** `handleConsentResponse(requestId, approved)`: records the answer
      (which stamps `respondedAt`), and on approval appends the scope to
      the stored session's scopes, without removing duplicates, and copies
      that list into the agent's session. */
  function HandleConsentResponse(a: Agent, requestId: string, approved: bool, now: int): (r: Result<Agent>)
    ensures r.Err? <==> requestId !in Tables.Ids(a.store.consentRequests)
    ensures r.Err? ==> r.message == ConsentNotFound
  {
    var status := if approved then ConsentStatus.Granted else ConsentStatus.Denied;
    var (store, request) := Storage.UpdateConsentRequest(a.store, requestId, Storage.NoConsentChange.(status := Some(status)), now);
    match request
    case None => Err(ConsentNotFound)
    case Some(req) =>
      var a1 := a.(store := store);
      if !approved then Ok(a1)
      else
        match Tables.Get(store.sessions, req.sessionId)
        case None => Ok(a1)
        case Some(session) => Ok(SetScopes(a1, req.sessionId, session.grantedScopes + [req.scope], now))
  }

  /** The answer is recorded: the request's status becomes granted or
      denied and it is stamped as answered at `now`. */
  lemma ConsentAnswerRecorded(a: Agent, requestId: string, approved: bool, now: int)
    requires requestId in Tables.Ids(a.store.consentRequests)
    ensures var r := HandleConsentResponse(a, requestId, approved, now);
            var req := Tables.Get(r.value.store.consentRequests, requestId);
            && req.Some?
            && req.value.status == Some(if approved then ConsentStatus.Granted else ConsentStatus.Denied)
            && req.value.respondedAt == Some(now)
            && req.value.scope == Tables.Get(a.store.consentRequests, requestId).value.scope
  {
  }

  /** Approval appends the request's scope to the stored scopes, even when
      the scope is already granted, and the agent's session (if it holds
      one) gets the same list; no other session, field or table changes
      beyond the answered request. */
  lemma ApprovalAppendsScope(a: Agent, requestId: string, now: int)
    requires requestId in Tables.Ids(a.store.consentRequests)
    requires var req := Tables.Get(a.store.consentRequests, requestId).value;
             req.sessionId in Tables.Ids(a.store.sessions)
    ensures var req := Tables.Get(a.store.consentRequests, requestId).value;
            var before := Tables.Get(a.store.sessions, req.sessionId).value;
            var r := HandleConsentResponse(a, requestId, true, now).value;
            var after := Tables.Get(r.store.sessions, req.sessionId).value;
            && after.grantedScopes == before.grantedScopes + [req.scope]
            && |after.grantedScopes| == |before.grantedScopes| + 1
            && after.lastActionTime == now
            && (Tables.Get(r.sessions, req.sessionId).Some? <==> Tables.Get(a.sessions, req.sessionId).Some?)
            && (Tables.Get(a.sessions, req.sessionId).Some? ==>
                  Tables.Get(r.sessions, req.sessionId).value
                    == Tables.Get(a.sessions, req.sessionId).value.(grantedScopes := after.grantedScopes))
    ensures var req := Tables.Get(a.store.consentRequests, requestId).value;
            var r := HandleConsentResponse(a, requestId, true, now).value;
            && (forall k :: k != req.sessionId ==> (Tables.Get(r.sessions, k) == Tables.Get(a.sessions, k)
                                                  && Tables.Get(r.store.sessions, k) == Tables.Get(a.store.sessions, k)))
            && r.store == a.store.(sessions := r.store.sessions, consentRequests := r.store.consentRequests)
  {
    var req := Tables.Get(a.store.consentRequests, requestId).value;
    var store := Storage.UpdateConsentRequest(a.store, requestId, Storage.NoConsentChange.(status := Some(ConsentStatus.Granted)), now).0;
    assert Tables.Get(store.consentRequests, requestId).value.sessionId == req.sessionId;
    assert Tables.Get(store.consentRequests, requestId).value.scope == req.scope;
    assert store.sessions == a.store.sessions;
  }

  /** Denial changes no session, in the store or in the agent. */
  lemma DenialKeepsScopes(a: Agent, requestId: string, now: int)
    requires requestId in Tables.Ids(a.store.consentRequests)
    ensures var r := HandleConsentResponse(a, requestId, false, now).value;
            r.sessions == a.sessions && r.store.sessions == a.store.sessions
            && r.store == a.store.(consentRequests := r.store.consentRequests)
  {
  }

  /** `revokeConsentScope(sessionId, scope)`: removes every occurrence of
      the scope from the stored session, keeping the other scopes in order,
      and copies the result into the agent's session; an unknown session
      changes nothing. */
  function RevokeConsentScope(a: Agent, sessionId: string, scope: string, now: int): (r: Agent)
    ensures sessionId !in Tables.Ids(a.store.sessions) ==> r == a
    ensures sessionId in Tables.Ids(a.store.sessions) ==>
              var before := Tables.Get(a.store.sessions, sessionId).value.grantedScopes;
              && sessionId in Tables.Ids(r.store.sessions)
              && var after := Tables.Get(r.store.sessions, sessionId).value.grantedScopes;
              && scope !in after
              && (forall x :: x != scope ==> multiset(after)[x] == multiset(before)[x])
              && after == Tables.Filter(before, (x: string) => x != scope)
              && Tables.Get(r.store.sessions, sessionId).value.lastActionTime == now
              && (Tables.Get(r.sessions, sessionId).Some? <==> Tables.Get(a.sessions, sessionId).Some?)
              && (Tables.Get(r.sessions, sessionId).Some? ==>
                    Tables.Get(r.sessions, sessionId).value == Tables.Get(a.sessions, sessionId).value.(grantedScopes := after))
    ensures forall k :: k != sessionId ==> (Tables.Get(r.sessions, k) == Tables.Get(a.sessions, k)
                                            && Tables.Get(r.store.sessions, k) == Tables.Get(a.store.sessions, k))
    ensures r.store == a.store.(sessions := r.store.sessions)
  {
    match Tables.Get(a.store.sessions, sessionId)
    case None => a
    case Some(session) =>
      var kept := Tables.Filter(session.grantedScopes, (x: string) => x != scope);
      Tables.FilterMembers(session.grantedScopes, (x: string) => x != scope, scope);
      assert forall x :: x != scope ==> multiset(kept)[x] == multiset(session.grantedScopes)[x] by {
        forall x | x != scope {
          Tables.FilterCounts(session.grantedScopes, (x: string) => x != scope, x);
        }
      }
      SetScopes(a, sessionId, kept, now)
  }

  /** Revoking twice is the same as revoking once. */
  lemma RevokeIdempotent(a: Agent, sessionId: string, scope: string, now: int)
    requires sessionId in Tables.Ids(a.store.sessions)
    ensures var once := RevokeConsentScope(a, sessionId, scope, now);
            var twice := RevokeConsentScope(once, sessionId, scope, now);
            Tables.Get(twice.store.sessions, sessionId).value.grantedScopes
              == Tables.Get(once.store.sessions, sessionId).value.grantedScopes
  {
    var once := RevokeConsentScope(a, sessionId, scope, now);
    var after := Tables.Get(once.store.sessions, sessionId).value.grantedScopes;
    FilterWithout(after, scope);
  }

  /** Filtering out an absent scope changes nothing. */
  lemma {:induction false} FilterWithout(s: seq<string>, scope: string)
    requires scope !in s
    ensures Tables.Filter(s, (x: string) => x != scope) == s
  {
    if |s| > 0 {
      FilterWithout(s[1..], scope);
      assert s == [s[0]] + s[1..];
    }
  }

  // -------------------------------------------------------- tool dispatch

  /** One tool call the language model asks for. */
  datatype ToolCall = ToolCall(tool: string, args: seq<Json.Field>)

  /** The object `executeAction` returns; an absent key is `None`. */
  datatype ToolResult = ToolResult(
    success: bool,
    message: Option<string>,
    error: Option<string>,
    output: Option<Json.Value>,
    extras: Option<Json.Value>,
    payload: Option<Json.Value>)

  const KnownTools: seq<string> := ["shortcuts.run", "tasker.intent", "webhook.reply"]

  /** JavaScript truthiness of a possibly missing value. */
  predicate Truthy(v: Option<Json.Value>)
  {
    match v
    case None => false
    case Some(Null) => false
    case Some(Bool(b)) => b
    case Some(Num(n)) => n != 0
    case Some(Str(s)) => s != ""
    case Some(_) => true
  }

  /** The text a template literal substitutes for a value. */
  function Display(v: Option<Json.Value>): string
  {
    match v
    case None => "undefined"
    case Some(x) => ValueText(x)
  }

  function ValueText(v: Json.Value): string
    decreases v, 1
  {
    match v
    case Null => "null"
    case Bool(b) => if b then "true" else "false"
    case Num(n) => Js.IntToString(n)
    case Str(s) => s
    case Arr(items) => JoinText(v, items)
    case Obj(_) => "[object Object]"
  }

  /** `items.join(",")`, where null elements print as nothing. */
  function JoinText(whole: Json.Value, items: seq<Json.Value>): string
    requires whole.Arr? && (forall i :: 0 <= i < |items| ==> items[i] in whole.items)
    decreases whole, 0, |items|
  {
    if |items| == 0 then ""
    else
      var first := if items[0].Null? then "" else ValueText(items[0]);
      if |items| == 1 then first else first + "," + JoinText(whole, items[1..])
  }

  /** `executeAction(action)`: the three known tools report success with
      a message built from their arguments and pass one argument through
      (a shortcut's truthy `input`, an intent's `extras`, a reply's
      `payload`); any other tool reports failure with "Unknown tool: " and
      the tool name. */
  function ExecuteAction(call: ToolCall): (r: ToolResult)
    ensures r.success <==> call.tool in KnownTools
    ensures !r.success ==> r.error == Some("Unknown tool: " + call.tool) && r.message.None?
    ensures r.success ==> r.error.None? && r.message.Some?
    ensures call.tool == "shortcuts.run" ==> r.output.Some? && Truthy(r.output)
    ensures call.tool == "shortcuts.run" && Truthy(Json.Get(call.args, "input")) ==> r.output == Json.Get(call.args, "input")
    ensures call.tool == "shortcuts.run" ==>
              && r.message == Some("Shortcut '" + Display(Json.Get(call.args, "shortcut_name")) + "' executed successfully")
              && r.extras.None? && r.payload.None?
    ensures call.tool == "tasker.intent" ==>
              && r.message == Some("Tasker intent '" + Display(Json.Get(call.args, "action")) + "' sent successfully")
              && r.extras == Json.Get(call.args, "extras") && r.output.None? && r.payload.None?
    ensures call.tool == "webhook.reply" ==>
              && r.message == Some("Webhook reply sent")
              && r.payload == Json.Get(call.args, "payload") && r.output.None? && r.extras.None?
    ensures !r.success ==> r.output.None? && r.extras.None? && r.payload.None?
  {
    if call.tool == "shortcuts.run" then
      var input := Json.Get(call.args, "input");
      ToolResult(true, Some("Shortcut '" + Display(Json.Get(call.args, "shortcut_name")) + "' executed successfully"),
                 None, Some(if Truthy(input) then input.value else Json.Str("executed")), None, None)
    else if call.tool == "tasker.intent" then
      ToolResult(true, Some("Tasker intent '" + Display(Json.Get(call.args, "action")) + "' sent successfully"),
                 None, None, Json.Get(call.args, "extras"), None)
    else if call.tool == "webhook.reply" then
      ToolResult(true, Some("Webhook reply sent"), None, None, None, Json.Get(call.args, "payload"))
    else
      ToolResult(false, None, Some("Unknown tool: " + call.tool), None, None, None)
  }

  /** A shortcut whose input is missing or falsy reports "executed". */
  lemma ShortcutDefaultOutput(args: seq<Json.Field>)
    requires !Truthy(Json.Get(args, "input"))
    ensures ExecuteAction(ToolCall("shortcuts.run", args)).output == Some(Json.Str("executed"))
  {
  }

  /** A result as the JSON object stored in the action's `result`. */
  function ResultJson(r: ToolResult): Json.Value
  {
    Json.Obj([Json.Field("success", Json.Bool(r.success))]
             + Entry("message", if r.message.Some? then Some(Json.Str(r.message.value)) else None)
             + Entry("output", r.output)
             + Entry("extras", r.extras)
             + Entry("payload", r.payload)
             + Entry("error", if r.error.Some? then Some(Json.Str(r.error.value)) else None))
  }

  function Entry(key: string, v: Option<Json.Value>): seq<Json.Field>
  {
    if v.Some? then [Json.Field(key, v.value)] else []
  }

  // ------------------------------------------------------------ statistics

  datatype SessionStats = SessionStats(
    grantedScopes: nat,
    appInventory: nat,
    executedTasks: nat,
    revenue: string,
    startTime: int,
    lastAction: int)

  /** `getSessionStats(sessionId)`: the sizes of the stored session's
      lists; throws "Session not found" for an unknown id. */
  function GetSessionStats(a: Agent, sessionId: string): (r: Result<SessionStats>)
    ensures r.Err? <==> sessionId !in Tables.Ids(a.store.sessions)
    ensures r.Err? ==> r.message == SessionNotFound
    ensures r.Ok? ==> var s := Tables.Get(a.store.sessions, sessionId).value;
                      && r.value.grantedScopes == |s.grantedScopes|
                      && r.value.appInventory == |s.appInventory|
                      && r.value.executedTasks == |s.executedTasks|
                      && r.value.revenue == s.sessionRevenue
                      && r.value.startTime == s.startTime && r.value.lastAction == s.lastActionTime
  {
    match Tables.Get(a.store.sessions, sessionId)
    case None => Err(SessionNotFound)
    case Some(s) => Ok(SessionStats(|s.grantedScopes|, |s.appInventory|, |s.executedTasks|,
                                    s.sessionRevenue, s.startTime, s.lastActionTime))
  }

  /** A new agent session reports empty lists and revenue "0". */
  lemma NewSessionStats(a: Agent, userId: string, id: string, now: int)
    ensures var b := CreateSession(a, userId, id, now).0;
            GetSessionStats(b, id) == Ok(SessionStats(0, 0, 0, "0", now, now))
  {
  }

  // ------------------------------------------------------ text and voice

  /** What the language model answers (`AgentResponse`). */
  datatype AgentReply = AgentReply(response: string, actions: seq<ToolCall>, requestedScopes: Option<seq<string>>)

  /** The scopes the reply asks for, an absent list being empty. */
  function Requested(reply: AgentReply): seq<string>
  {
    if reply.requestedScopes.Some? then reply.requestedScopes.value else []
  }

  /** Files one pending consent request per requested scope, in order,
      the k-th taking id `uuids[k]`, while ids last; nothing else in the
      store changes. */
  function FileRequests(store: Store, sessionId: string, scopes: seq<string>, uuids: seq<string>, now: int): (r: Store)
    ensures r == store.(consentRequests := r.consentRequests)
    decreases |scopes|
  {
    if |scopes| == 0 || |uuids| == 0 then store
    else
      var s1 := Storage.CreateConsentRequest(store, PendingRequest(sessionId, scopes[0]), uuids[0], now).0;
      FileRequests(s1, sessionId, scopes[1..], uuids[1..], now)
  }

  /** The request filed for a scope: pending, for the session, not yet
      answered. */
  function PendingFor(id: string, sessionId: string, scope: string, now: int): ConsentRequest
  {
    ConsentRequest(id, sessionId, None, scope, None, None, None, Some(ConsentStatus.Pending), now, None)
  }

  /** Filing requests under other ids leaves an id's request alone. */
  lemma {:induction false} FileRequestsKeeps(store: Store, sessionId: string, scopes: seq<string>, uuids: seq<string>, now: int, id: string)
    requires id !in uuids
    ensures Tables.Get(FileRequests(store, sessionId, scopes, uuids, now).consentRequests, id)
         == Tables.Get(store.consentRequests, id)
    decreases |scopes|
  {
    if |scopes| > 0 && |uuids| > 0 {
      var s1 := Storage.CreateConsentRequest(store, PendingRequest(sessionId, scopes[0]), uuids[0], now).0;
      assert uuids[0] != id;
      assert id !in uuids[1..];
      FileRequestsKeeps(s1, sessionId, scopes[1..], uuids[1..], now, id);
    }
  }

  /** With enough distinct ids, the k-th scope's request is stored under
      the k-th id. */
  lemma {:induction false} FileRequestsFiles(store: Store, sessionId: string, scopes: seq<string>, uuids: seq<string>, now: int)
    requires |uuids| >= |scopes|
    requires forall i, j :: 0 <= i < j < |uuids| ==> uuids[i] != uuids[j]
    ensures forall k :: 0 <= k < |scopes| ==>
              Tables.Get(FileRequests(store, sessionId, scopes, uuids, now).consentRequests, uuids[k])
                == Some(PendingFor(uuids[k], sessionId, scopes[k], now))
    decreases |scopes|
  {
    if |scopes| > 0 {
      var s1 := Storage.CreateConsentRequest(store, PendingRequest(sessionId, scopes[0]), uuids[0], now).0;
      var r := FileRequests(s1, sessionId, scopes[1..], uuids[1..], now);
      assert r == FileRequests(store, sessionId, scopes, uuids, now);
      assert forall i, j :: 0 <= i < j < |uuids[1..]| ==> uuids[1..][i] != uuids[1..][j] by {
        forall i, j | 0 <= i < j < |uuids[1..]| ensures uuids[1..][i] != uuids[1..][j] {
          assert uuids[1..][i] == uuids[i + 1] && uuids[1..][j] == uuids[j + 1];
        }
      }
      FileRequestsFiles(s1, sessionId, scopes[1..], uuids[1..], now);
      forall k | 0 <= k < |scopes|
        ensures Tables.Get(r.consentRequests, uuids[k]) == Some(PendingFor(uuids[k], sessionId, scopes[k], now))
      {
        if k > 0 {
          assert uuids[1..][k - 1] == uuids[k] && scopes[1..][k - 1] == scopes[k];
        } else {
          assert uuids[0] !in uuids[1..] by {
            forall j | 1 <= j < |uuids| ensures uuids[j] != uuids[0] { }
          }
          FileRequestsKeeps(s1, sessionId, scopes[1..], uuids[1..], now, uuids[0]);
        }
      }
    }
  }

  datatype TextReply = TextReply(response: string, actions: seq<ToolCall>, requestedScopes: Option<seq<string>>)

  /** `processTextInput(sessionId, message)`: throws "Session not found"
      unless the agent holds the session and "User not found" unless its
      user is stored; otherwise files one pending consent request per
      requested scope and passes the reply through. `reply` is the outcome
      of the language-model call for this message. */
  function ProcessTextInput(a: Agent, sessionId: string, reply: Result<AgentReply>, uuids: seq<string>, now: int): (r: Result<(Agent, TextReply)>)
    ensures sessionId !in Tables.Ids(a.sessions) ==> r == Err(SessionNotFound)
    ensures (sessionId in Tables.Ids(a.sessions)
             && Tables.Get(a.sessions, sessionId).value.userId !in Tables.Ids(a.store.users)) ==> r == Err(UserNotFound)
    ensures r.Ok? ==> reply.Ok? && r.value.1 == TextReply(reply.value.response, reply.value.actions, reply.value.requestedScopes)
    ensures r.Ok? ==> r.value.0 == a.(store := a.store.(consentRequests := r.value.0.store.consentRequests))
  {
    match Tables.Get(a.sessions, sessionId)
    case None => Err(SessionNotFound)
    case Some(session) =>
      if Tables.Get(a.store.users, session.userId).None? then Err(UserNotFound)
      else
        match reply
        case Err(m) => Err(m)
        case Ok(rep) =>
          var store := FileRequests(a.store, session.sessionId, Requested(rep), uuids, now);
          Ok((a.(store := store), TextReply(rep.response, rep.actions, rep.requestedScopes)))
  }

  /** With enough distinct uuids ids, every requested scope gets its own
      pending consent request for the session. */
  lemma TextInputFilesRequests(a: Agent, sessionId: string, reply: AgentReply, uuids: seq<string>, now: int)
    requires sessionId in Tables.Ids(a.sessions)
    requires Tables.Get(a.sessions, sessionId).value.sessionId == sessionId
    requires Tables.Get(a.sessions, sessionId).value.userId in Tables.Ids(a.store.users)
    requires |uuids| >= |Requested(reply)|
    requires forall i, j :: 0 <= i < j < |uuids| ==> uuids[i] != uuids[j]
    ensures var r := ProcessTextInput(a, sessionId, Ok(reply), uuids, now);
            && r.Ok?
            && forall k :: 0 <= k < |Requested(reply)| ==>
                 var req := Tables.Get(r.value.0.store.consentRequests, uuids[k]);
                 && req.Some? && req.value.sessionId == sessionId && req.value.scope == Requested(reply)[k]
                 && req.value.status == Some(ConsentStatus.Pending)
  {
    FileRequestsFiles(a.store, sessionId, Requested(reply), uuids, now);
  }

  /** One action the voice pipeline ran: its stored record as created and
      the tool's result. */
  datatype ExecutedAction = ExecutedAction(record: Action, result: ToolResult)

  /** One turn of the action loop: the call is stored as a pending action
      under `id`, executed, and the stored action's status and result then
      set from the outcome. The returned record is the one as created. */
  function RunAction(store: Store, sessionId: string, call: ToolCall, id: string, now: int): (r: (Store, ExecutedAction))
    ensures r.0 == store.(actions := r.0.actions)
    ensures r.1.result == ExecuteAction(call)
    ensures r.1.record.id == id && r.1.record.sessionId == sessionId && r.1.record.tool == call.tool
            && r.1.record.args == call.args && r.1.record.status == Some(ActionStatus.Pending)
    ensures var stored := Tables.Get(r.0.actions, id);
            && stored.Some?
            && stored.value.status == Some(if r.1.result.success then ActionStatus.Success else ActionStatus.Failed)
            && stored.value.result == Some(ResultJson(r.1.result))
    ensures forall k :: k != id ==> Tables.Get(r.0.actions, k) == Tables.Get(store.actions, k)
  {
    var (s1, record) := Storage.CreateAction(store, InsertAction(sessionId, call.tool, call.args, Some(ActionStatus.Pending), None, None, None), id, now);
    var result := ExecuteAction(call);
    var status := if result.success then ActionStatus.Success else ActionStatus.Failed;
    var s2 := Storage.UpdateAction(s1, record.id, Storage.NoActionChange.(status := Some(status), result := Some(ResultJson(result)))).0;
    (s2, ExecutedAction(record, result))
  }

  /** Runs the requested tool calls in order, one `RunAction` each. The
      k-th call takes id `uuids[k]`, while ids last. */
  function RunActions(store: Store, sessionId: string, calls: seq<ToolCall>, uuids: seq<string>, now: int): (r: (Store, seq<ExecutedAction>))
    ensures r.0 == store.(actions := r.0.actions)
    ensures |r.1| == if |uuids| < |calls| then |uuids| else |calls|
    decreases |calls|
  {
    if |calls| == 0 || |uuids| == 0 then (store, [])
    else
      var (s1, done) := RunAction(store, sessionId, calls[0], uuids[0], now);
      var (s2, rest) := RunActions(s1, sessionId, calls[1..], uuids[1..], now);
      (s2, [done] + rest)
  }

  /** The k-th executed action belongs to the k-th call and the k-th id. */
  predicate ResultMatches(results: seq<ExecutedAction>, calls: seq<ToolCall>, uuids: seq<string>, k: int)
  {
    && 0 <= k < |results| && k < |calls| && k < |uuids|
    && results[k].result == ExecuteAction(calls[k])
    && results[k].record.id == uuids[k]
    && results[k].record.tool == calls[k].tool
    && results[k].record.status == Some(ActionStatus.Pending)
  }

  /** Each call is executed with its own tool and arguments, stored under
      its own id and marked with its outcome. */
  lemma RunActionsResults(store: Store, sessionId: string, calls: seq<ToolCall>, uuids: seq<string>, now: int)
    ensures var r := RunActions(store, sessionId, calls, uuids, now);
            forall k :: 0 <= k < |r.1| ==> ResultMatches(r.1, calls, uuids, k)
  {
    var r := RunActions(store, sessionId, calls, uuids, now);
    forall k | 0 <= k < |r.1| ensures ResultMatches(r.1, calls, uuids, k) {
      RunActionsResultAt(store, sessionId, calls, uuids, now, k);
    }
  }

  /** `RunActionsResults` for one index, by induction on it. */
  lemma {:induction false} RunActionsResultAt(store: Store, sessionId: string, calls: seq<ToolCall>, uuids: seq<string>, now: int, k: nat)
    requires k < |calls| && k < |uuids|
    ensures ResultMatches(RunActions(store, sessionId, calls, uuids, now).1, calls, uuids, k)
    decreases k
  {
    var (s1, done) := RunAction(store, sessionId, calls[0], uuids[0], now);
    var rest := RunActions(s1, sessionId, calls[1..], uuids[1..], now).1;
    assert RunActions(store, sessionId, calls, uuids, now).1 == [done] + rest;
    if k > 0 {
      RunActionsResultAt(s1, sessionId, calls[1..], uuids[1..], now, k - 1);
      assert calls[1..][k - 1] == calls[k] && uuids[1..][k - 1] == uuids[k];
    }
  }

  /** The ids left for the actions once each requested scope has taken
      one. */
  function ActionIds(requested: seq<string>, uuids: seq<string>): seq<string>
  {
    if |requested| <= |uuids| then uuids[|requested|..] else []
  }

  /** The middle of the voice pipeline: one pending consent request per
      requested scope, then one stored and executed action per tool call,
      the k-th call under the k-th id left over. Only the consent requests
      and the actions change. */
  function FileAndRun(store: Store, sessionId: string, rep: AgentReply, uuids: seq<string>, now: int): (r: (Store, seq<ExecutedAction>))
    ensures r.0 == store.(consentRequests := r.0.consentRequests, actions := r.0.actions)
    ensures r.0.consentRequests == FileRequests(store, sessionId, Requested(rep), uuids, now).consentRequests
    ensures var ids := ActionIds(Requested(rep), uuids);
            && |r.1| == Utils.Min(|rep.actions|, |ids|)
            && forall k :: 0 <= k < |r.1| ==> ResultMatches(r.1, rep.actions, ids, k)
  {
    var s1 := FileRequests(store, sessionId, Requested(rep), uuids, now);
    var ids := ActionIds(Requested(rep), uuids);
    var r := RunActions(s1, sessionId, rep.actions, ids, now);
    forall k | 0 <= k < |r.1| ensures ResultMatches(r.1, rep.actions, ids, k) {
      RunActionsResultAt(s1, sessionId, rep.actions, ids, now, k);
    }
    r
  }

  /** The task record appended to the session's history. */
  function TaskRecord(now: int, input: string, response: string, actions: nat): Json.Value
  {
    Json.Obj([Json.Field("timestamp", Json.Num(now)), Json.Field("input", Json.Str(input)),
              Json.Field("response", Json.Str(response)), Json.Field("actions", Json.Num(actions))])
  }

  datatype VoiceReply = VoiceReply(
    transcription: string,
    response: string,
    audioResponse: string,
    actions: seq<ExecutedAction>,
    requestedScopes: Option<seq<string>>)

  /** `processVoiceInput(sessionId, audio)` as written: after the session,
      transcription, user, reply and speech steps it files the consent
      requests, runs the actions, and sets the stored task history to the
      agent's own copy of the history plus one task. The agent's copy is
      never updated, so each call replaces the stored history. */
  function ProcessVoiceInput(a: Agent, sessionId: string, transcription: Result<string>, reply: Result<AgentReply>,
                             speech: Result<string>, uuids: seq<string>, now: int): (r: Result<(Agent, VoiceReply)>)
    ensures sessionId !in Tables.Ids(a.sessions) ==> r == Err(SessionNotFound)
    ensures (sessionId in Tables.Ids(a.sessions) && transcription.Ok?
             && Tables.Get(a.sessions, sessionId).value.userId !in Tables.Ids(a.store.users)) ==> r == Err(UserNotFound)
    ensures r.Ok? ==> r.value.0.sessions == a.sessions
    ensures r.Ok? ==> transcription.Ok? && reply.Ok? && speech.Ok?
    ensures r.Ok? ==> r.value.0.store.users == a.store.users
    ensures r.Ok? ==> r.value.1 == VoiceReply(transcription.value, reply.value.response, speech.value,
                                               r.value.1.actions, reply.value.requestedScopes)
    ensures r.Ok? ==> var ids := ActionIds(Requested(reply.value), uuids);
                      && |r.value.1.actions| == Utils.Min(|reply.value.actions|, |ids|)
                      && forall k :: 0 <= k < |r.value.1.actions| ==> ResultMatches(r.value.1.actions, reply.value.actions, ids, k)
    ensures r.Ok? ==> var session := Tables.Get(a.sessions, sessionId).value;
                      session.sessionId in Tables.Ids(a.store.sessions) ==>
                        && session.sessionId in Tables.Ids(r.value.0.store.sessions)
                        && Tables.Get(r.value.0.store.sessions, session.sessionId).value.executedTasks
                             == session.executedTasks
                                + [TaskRecord(now, transcription.value, reply.value.response, |r.value.1.actions|)]
  {
    match Tables.Get(a.sessions, sessionId)
    case None => Err(SessionNotFound)
    case Some(session) =>
      match transcription
      case Err(m) => Err(m)
      case Ok(text) =>
        if Tables.Get(a.store.users, session.userId).None? then Err(UserNotFound)
        else
          match reply
          case Err(m) => Err(m)
          case Ok(rep) =>
            match speech
            case Err(m) => Err(m)
            case Ok(audioUrl) =>
              var (s2, executed) := FileAndRun(a.store, session.sessionId, rep, uuids, now);
              var task := TaskRecord(now, text, rep.response, |executed|);
              var tasks := Storage.NoSessionChange.(executedTasks := Some(session.executedTasks + [task]));
              var s3 := Storage.UpdateSession(s2, session.sessionId, tasks, now).0;
              Ok((a.(store := s3), VoiceReply(text, rep.response, audioUrl, executed, rep.requestedScopes)))
  }

  /** With enough distinct ids, a voice input files one pending consent
      request per requested scope, as a text input does; running the
      actions and updating the history leave those requests alone. */
  lemma VoiceInputFilesRequests(a: Agent, sessionId: string, text: string, reply: AgentReply, speech: string,
                                uuids: seq<string>, now: int)
    requires sessionId in Tables.Ids(a.sessions)
    requires Tables.Get(a.sessions, sessionId).value.sessionId == sessionId
    requires Tables.Get(a.sessions, sessionId).value.userId in Tables.Ids(a.store.users)
    requires |uuids| >= |Requested(reply)|
    requires forall i, j :: 0 <= i < j < |uuids| ==> uuids[i] != uuids[j]
    ensures var r := ProcessVoiceInput(a, sessionId, Ok(text), Ok(reply), Ok(speech), uuids, now);
            && r.Ok?
            && forall k :: 0 <= k < |Requested(reply)| ==>
                 var req := Tables.Get(r.value.0.store.consentRequests, uuids[k]);
                 && req.Some? && req.value.sessionId == sessionId && req.value.scope == Requested(reply)[k]
                 && req.value.status == Some(ConsentStatus.Pending)
  {
    FileRequestsFiles(a.store, sessionId, Requested(reply), uuids, now);
  }

  /** The history loss: for a session the agent created (its own copy of
      the history stays empty), a voice input leaves exactly one stored
      task, however many the store held before. */
  lemma VoiceInputDropsHistory(a: Agent, sessionId: string, text: string, reply: AgentReply, speech: string,
                               uuids: seq<string>, now: int)
    requires sessionId in Tables.Ids(a.sessions) && sessionId in Tables.Ids(a.store.sessions)
    requires Tables.Get(a.sessions, sessionId).value == AgentSession(sessionId, Tables.Get(a.sessions, sessionId).value.userId,
                                                                    Tables.Get(a.sessions, sessionId).value.grantedScopes, [],
                                                                    Tables.Get(a.sessions, sessionId).value.revenue)
    requires Tables.Get(a.sessions, sessionId).value.userId in Tables.Ids(a.store.users)
    requires |Tables.Get(a.store.sessions, sessionId).value.executedTasks| == 1
    ensures var r := ProcessVoiceInput(a, sessionId, Ok(text), Ok(reply), Ok(speech), uuids, now);
            && r.Ok?
            && |Tables.Get(r.value.0.store.sessions, sessionId).value.executedTasks| == 1
  {
  }

  /** End to end: a session the agent creates keeps one stored task after
      two voice inputs, not two. */
  lemma TwoVoiceInputsKeepOneTask(a: Agent, userId: string, id: string, now0: int,
                                  text1: string, reply1: AgentReply, speech1: string, uuids1: seq<string>, now1: int,
                                  text2: string, reply2: AgentReply, speech2: string, uuids2: seq<string>, now2: int)
    requires userId in Tables.Ids(a.store.users)
    ensures var b := CreateSession(a, userId, id, now0).0;
            var r1 := ProcessVoiceInput(b, id, Ok(text1), Ok(reply1), Ok(speech1), uuids1, now1);
            && r1.Ok?
            && var r2 := ProcessVoiceInput(r1.value.0, id, Ok(text2), Ok(reply2), Ok(speech2), uuids2, now2);
            && r2.Ok?
            && |Tables.Get(r2.value.0.store.sessions, id).value.executedTasks| == 1
  {
    var b := CreateSession(a, userId, id, now0).0;
    assert b.store.users == a.store.users;
    var r1 := ProcessVoiceInput(b, id, Ok(text1), Ok(reply1), Ok(speech1), uuids1, now1);
    assert r1.Ok?;
    assert Tables.Get(r1.value.0.sessions, id) == Some(AgentSession(id, userId, [], [], "0"));
  }

  /** The history as evidently intended: the task is appended to the
      stored history, so the stored count grows by one per voice input.
      Otherwise the same as `ProcessVoiceInput`. */
  function ProcessVoiceInputAppending(a: Agent, sessionId: string, transcription: Result<string>, reply: Result<AgentReply>,
                                      speech: Result<string>, uuids: seq<string>, now: int): (r: Result<(Agent, VoiceReply)>)
    ensures sessionId !in Tables.Ids(a.sessions) ==> r == Err(SessionNotFound)
    ensures r.Ok? ==> transcription.Ok? && reply.Ok? && speech.Ok?
    ensures r.Ok? ==> r.value.0.store.users == a.store.users
    ensures r.Ok? ==> r.value.1 == VoiceReply(transcription.value, reply.value.response, speech.value,
                                               r.value.1.actions, reply.value.requestedScopes)
    ensures r.Ok? ==> var ids := ActionIds(Requested(reply.value), uuids);
                      && |r.value.1.actions| == Utils.Min(|reply.value.actions|, |ids|)
                      && forall k :: 0 <= k < |r.value.1.actions| ==> ResultMatches(r.value.1.actions, reply.value.actions, ids, k)
    ensures r.Ok? ==> var session := Tables.Get(a.sessions, sessionId).value;
                      session.sessionId in Tables.Ids(a.store.sessions) ==>
                        && session.sessionId in Tables.Ids(r.value.0.store.sessions)
                        && Tables.Get(r.value.0.store.sessions, session.sessionId).value.executedTasks
                             == Tables.Get(a.store.sessions, session.sessionId).value.executedTasks
                                + [TaskRecord(now, transcription.value, reply.value.response, |r.value.1.actions|)]
  {
    match Tables.Get(a.sessions, sessionId)
    case None => Err(SessionNotFound)
    case Some(session) =>
      match transcription
      case Err(m) => Err(m)
      case Ok(text) =>
        if Tables.Get(a.store.users, session.userId).None? then Err(UserNotFound)
        else
          match reply
          case Err(m) => Err(m)
          case Ok(rep) =>
            match speech
            case Err(m) => Err(m)
            case Ok(audioUrl) =>
              var (s2, executed) := FileAndRun(a.store, session.sessionId, rep, uuids, now);
              var task := TaskRecord(now, text, rep.response, |executed|);
              var history := match Tables.Get(s2.sessions, session.sessionId)
                case Some(stored) => stored.executedTasks
                case None => session.executedTasks;
              var tasks := Storage.NoSessionChange.(executedTasks := Some(history + [task]));
              var s3 := Storage.UpdateSession(s2, session.sessionId, tasks, now).0;
              Ok((a.(store := s3), VoiceReply(text, rep.response, audioUrl, executed, rep.requestedScopes)))
  }

  /** With the appending pipeline the stored task count grows by one with
      every voice input. */
  lemma AppendingKeepsHistory(a: Agent, sessionId: string, text: string, reply: AgentReply, speech: string,
                              uuids: seq<string>, now: int)
    requires sessionId in Tables.Ids(a.sessions) && sessionId in Tables.Ids(a.store.sessions)
    requires Tables.Get(a.sessions, sessionId).value.sessionId == sessionId
    requires Tables.Get(a.sessions, sessionId).value.userId in Tables.Ids(a.store.users)
    ensures var r := ProcessVoiceInputAppending(a, sessionId, Ok(text), Ok(reply), Ok(speech), uuids, now);
            && r.Ok?
            && |Tables.Get(r.value.0.store.sessions, sessionId).value.executedTasks|
               == |Tables.Get(a.store.sessions, sessionId).value.executedTasks| + 1
  {
  }
}
