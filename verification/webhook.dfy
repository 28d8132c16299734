/** The n8n webhook of server/services/n8nWebhook.ts: the allow-lists, the
    request-id format, and the decisions `postToN8N` takes before and after
    its HTTP call. The configured URL, the random bytes and the outcome of
    `fetch` are parameters; logging is left out. */
module Webhook {
  import opened Wrappers

  /** `ALLOWED_ACTIONS`: the actions that may trigger the webhook. */
  const AllowedActions: set<string> :=
    {"createSession", "runTool", "orchestrate", "executePlan", "processTextInput", "processVoiceInput"}

  /** The default allow-list inside `isActionAllowed`. */
  const DefaultAllow: set<string> := {"createSession", "runTool", "orchestrate", "executePlan"}

  /** `isActionAllowed(actionName)`: exactly the four orchestration
      actions. */
  function IsActionAllowed(actionName: string): (b: bool)
    ensures b <==> actionName == "createSession" || actionName == "runTool"
                   || actionName == "orchestrate" || actionName == "executePlan"
  {
    actionName in DefaultAllow
  }

  /** `shouldTriggerN8N(actionName)`: the default allow-list widened by the
      text and voice pipelines. */
  function ShouldTriggerN8N(actionName: string): (b: bool)
    ensures b <==> IsActionAllowed(actionName) || actionName == "processTextInput" || actionName == "processVoiceInput"
  {
    actionName in AllowedActions
  }

  /** The default allow-list is strictly narrower than the trigger list:
      every action it allows triggers the webhook, and the two text and
      voice pipelines trigger it without being allowed by default. */
  lemma AllowListsDiffer(actionName: string)
    ensures IsActionAllowed(actionName) ==> ShouldTriggerN8N(actionName)
    ensures ShouldTriggerN8N("processTextInput") && !IsActionAllowed("processTextInput")
    ensures ShouldTriggerN8N("processVoiceInput") && !IsActionAllowed("processVoiceInput")
    ensures ShouldTriggerN8N(actionName) && !IsActionAllowed(actionName) <==>
              actionName == "processTextInput" || actionName == "processVoiceInput"
  {
  }

  newtype byte = x: int | 0 <= x < 256

  /** The lower-case hex digit of a value below 16. */
  function HexChar(n: int): (c: char)
    requires 0 <= n < 16
    ensures IsHexDigit(c)
  {
    if n < 10 then ('0' as int + n) as char else ('a' as int + n - 10) as char
  }

  predicate IsHexDigit(c: char)
  {
    '0' <= c <= '9' || 'a' <= c <= 'f'
  }

  /** `bytes.toString("hex")`: two lower-case digits per byte. */
  function Hex(bytes: seq<byte>): (r: string)
    ensures |r| == 2 * |bytes|
    ensures forall i :: 0 <= i < |r| ==> IsHexDigit(r[i])
  {
    if |bytes| == 0 then ""
    else [HexChar(bytes[0] as int / 16), HexChar(bytes[0] as int % 16)] + Hex(bytes[1..])
  }

  /** The value of a lower-case hex digit: the inverse of `HexChar`. */
  function DigitValue(c: char): (r: int)
    requires IsHexDigit(c)
    ensures 0 <= r < 16 && HexChar(r) == c
  {
    if '0' <= c <= '9' then c as int - '0' as int
    else c as int - 'a' as int + 10
  }

  /** Reads hex text back into bytes; `None` for odd length or a non-digit. */
  function Unhex(s: string): (r: Option<seq<byte>>)
    decreases |s|
  {
    if |s| == 0 then Some([])
    else if |s| == 1 || !IsHexDigit(s[0]) || !IsHexDigit(s[1]) then None
    else
      match Unhex(s[2..])
      case None => None
      case Some(rest) => Some([(16 * DigitValue(s[0]) + DigitValue(s[1])) as byte] + rest)
  }

  /** A digit's value is the value it was written from. */
  lemma DigitOfHexChar(n: int)
    requires 0 <= n < 16
    ensures DigitValue(HexChar(n)) == n
  {
  }

  /** Hex encoding loses nothing. */
  lemma {:induction false} HexRoundTrip(bytes: seq<byte>)
    ensures Unhex(Hex(bytes)) == Some(bytes)
  {
    if |bytes| > 0 {
      var h := Hex(bytes);
      var hi, lo := bytes[0] as int / 16, bytes[0] as int % 16;
      assert h[0] == HexChar(hi) && h[1] == HexChar(lo);
      assert h[2..] == Hex(bytes[1..]);
      HexRoundTrip(bytes[1..]);
      DigitOfHexChar(hi);
      DigitOfHexChar(lo);
      assert (16 * DigitValue(h[0]) + DigitValue(h[1])) as byte == bytes[0];
      assert bytes == [bytes[0]] + bytes[1..];
    }
  }

  const RequestIdBytes: nat := 12

  /** `makeRequestId(prefix = "req")`: the prefix, an underscore and the
      random bytes in hex; only a missing prefix falls back to "req". */
  function MakeRequestId(prefix: Option<string>, random: seq<byte>): (r: string)
    ensures var p := prefix.GetOr("req");
            && |r| == |p| + 1 + 2 * |random|
            && r[..|p|] == p && r[|p|] == '_'
            && Unhex(r[|p| + 1..]) == Some(random)
  {
    var p := prefix.GetOr("req");
    var r := p + "_" + Hex(random);
    HexRoundTrip(random);
    assert r[|p| + 1..] == Hex(random);
    r
  }

  /** A default id from twelve random bytes is 28 characters, "req_" and
      24 hex digits. */
  lemma DefaultRequestId(random: seq<byte>)
    requires |random| == RequestIdBytes
    ensures var r := MakeRequestId(None, random);
            |r| == 28 && r[..4] == "req_"
  {
    var r := MakeRequestId(None, random);
    assert r[..3] == "req" && r[3] == '_';
    assert r[..4] == r[..3] + [r[3]];
  }

  /** The parts of `N8NWebhookEvent` the poster looks at, and the rest as
      carried. */
  datatype Event = Event(
    requestId: string,
    timestamp: string,
    actionName: string,
    sessionId: Option<string>,
    success: bool,
    durationMs: Option<int>,
    tags: Option<seq<string>>)

  /** What the `fetch` call does: answer with an HTTP status whose body
      can be read, answer with one whose body throws when `text()` reads
      it, or throw. */
  datatype FetchOutcome = Responded(status: int) | RespondedUnreadable(status: int) | Threw

  /** The call gets as far as returning a status: it answered, and the
      body is read (for the error log) only when the status is not 2xx. */
  predicate Reported(fetch: FetchOutcome)
  {
    fetch.Responded? || (fetch.RespondedUnreadable? && StatusOk(fetch.status))
  }

  /** `{ ok, status?, requestId }`. */
  datatype PostResult = PostResult(ok: bool, status: Option<int>, requestId: string)

  /** `response.ok`: a 2xx status. */
  predicate StatusOk(status: int)
  {
    200 <= status <= 299
  }

  /** `!N8N_WEBHOOK_URL`: unset or empty. */
  predicate Configured(url: Option<string>)
  {
    url.Some? && url.value != ""
  }

  /** `postToN8N(event)`: without a URL or for an action off the list it
      skips the call; otherwise it reports the response's status and
      whether it was a success, and a thrown call, or a failing status
      whose body cannot be read, as a failure without a status. It never
      throws, and it always echoes the event's id. */
  function PostToN8N(url: Option<string>, event: Event, fetch: FetchOutcome): (r: PostResult)
    ensures r.requestId == event.requestId
    ensures r.ok <==> Configured(url) && ShouldTriggerN8N(event.actionName) && !fetch.Threw? && StatusOk(fetch.status)
    ensures r.status.Some? <==> Configured(url) && ShouldTriggerN8N(event.actionName) && Reported(fetch)
    ensures r.status.Some? ==> r.status.value == fetch.status
  {
    if !Configured(url) then PostResult(false, None, event.requestId)
    else if !ShouldTriggerN8N(event.actionName) then PostResult(false, None, event.requestId)
    else
      match fetch
      case Responded(status) => PostResult(StatusOk(status), Some(status), event.requestId)
      case RespondedUnreadable(status) =>
        if StatusOk(status) then PostResult(true, Some(status), event.requestId)
        else PostResult(false, None, event.requestId)
      case Threw => PostResult(false, None, event.requestId)
  }

  /** When the call is skipped, what the network would have done makes no
      difference. */
  lemma SkippedCallIgnoresNetwork(url: Option<string>, event: Event, f1: FetchOutcome, f2: FetchOutcome)
    requires !Configured(url) || !ShouldTriggerN8N(event.actionName)
    ensures PostToN8N(url, event, f1) == PostToN8N(url, event, f2)
    ensures PostToN8N(url, event, f1) == PostResult(false, None, event.requestId)
  {
  }
}
