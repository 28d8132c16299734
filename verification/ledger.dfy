/** The audit ledger of server/services/ledger.ts: payload redaction, the
    tamper-evident hash, logging, integrity checking, CSV export and the
    per-user summary. JSON serialisation with SHA-256 and ISO-8601 date
    formatting are foreign; they come in as the functions of a `Crypto`
    value. */
module Ledger {
  import opened Wrappers
  import opened Schema
  import Json
  import Js
  import Utils
  import Tables
  import Storage

  type Store = Storage.Store

  /** Substrings that mark a payload key as sensitive. */
  const SensitiveKeys: seq<string> :=
    ["password", "token", "apiKey", "secret", "accessToken", "refreshToken", "creditCard", "ssn", "pin"]

  const Redacted: string := "[REDACTED]"

  /** A key is sensitive when, lower-cased, it contains a lower-cased
      sensitive word. */
  predicate IsSensitive(key: string)
  {
    Utils.IncludesAny(key, SensitiveKeys)
  }

  // ------------------------------------------------------------ redaction

  /** `redactSensitiveData` applied to an object or array: an object keeps
      its keys, an array becomes an object keyed by the indices, and each
      entry is redacted. Other values are returned as they are. */
  function RedactValue(v: Json.Value): (r: Json.Value)
    ensures !v.Obj? && !v.Arr? ==> r == v
    ensures v.Obj? ==> r.Obj? && Json.Keys(r.fields) == Json.Keys(v.fields)
    ensures v.Arr? ==> r.Obj? && |r.fields| == |v.items|
                       && forall i :: 0 <= i < |v.items| ==> r.fields[i].key == Js.IntToString(i)
    decreases v, 0
  {
    match v
    case Obj(fs) =>
      Json.Obj(seq(|fs|, i requires 0 <= i < |fs| => Json.Field(fs[i].key, RedactEntry(fs[i].key, fs[i].value))))
    case Arr(items) =>
      Json.Obj(seq(|items|, i requires 0 <= i < |items| =>
                   Json.Field(Js.IntToString(i), RedactEntry(Js.IntToString(i), items[i]))))
    case _ => v
  }

  /** One entry: a sensitive key's value is replaced by "[REDACTED]",
      objects and arrays are redacted recursively, the rest is kept. */
  function RedactEntry(key: string, value: Json.Value): (r: Json.Value)
    ensures IsSensitive(key) ==> r == Json.Str(Redacted)
    ensures !IsSensitive(key) ==> r == RedactValue(value)
    decreases value, 1
  {
    if IsSensitive(key) then Json.Str(Redacted)
    else if value.Obj? || value.Arr? then RedactValue(value)
    else value
  }

  /** `redactSensitiveData(payload)`: the same keys in the same order, a
      sensitive key's value masked, a nested object redacted in turn, and
      any other value under a harmless key kept. */
  function RedactSensitiveData(payload: seq<Json.Field>): (r: seq<Json.Field>)
    ensures |r| == |payload|
    ensures forall i :: 0 <= i < |r| ==> r[i].key == payload[i].key
    ensures forall i :: 0 <= i < |r| && IsSensitive(payload[i].key) ==> r[i].value == Json.Str(Redacted)
    ensures forall i :: 0 <= i < |r| && !IsSensitive(payload[i].key) && (payload[i].value.Obj? || payload[i].value.Arr?) ==>
              r[i].value == RedactValue(payload[i].value)
    ensures forall i :: 0 <= i < |r| && !IsSensitive(payload[i].key) && !payload[i].value.Obj? && !payload[i].value.Arr? ==>
              r[i].value == payload[i].value
  {
    var r := RedactValue(Json.Obj(payload)).fields;
    assert forall i :: 0 <= i < |r| ==> r[i] == Json.Field(payload[i].key, RedactEntry(payload[i].key, payload[i].value));
    r
  }

  /** No sensitive key anywhere in a value holds anything but the mask. */
  predicate Clean(v: Json.Value)
    decreases v
  {
    match v
    case Obj(fs) => forall i :: 0 <= i < |fs| ==>
                      if IsSensitive(fs[i].key) then fs[i].value == Json.Str(Redacted) else Clean(fs[i].value)
    case Arr(items) => forall i :: 0 <= i < |items| ==> Clean(items[i])
    case _ => true
  }

  /** Redaction leaves no sensitive value behind, at any depth. */
  lemma {:induction false} RedactCleans(v: Json.Value)
    ensures Clean(RedactValue(v))
    decreases v, 0
  {
    match v
    case Obj(fs) =>
      forall i | 0 <= i < |fs| ensures Clean(RedactEntry(fs[i].key, fs[i].value)) {
        EntryCleans(fs[i].key, fs[i].value);
      }
    case Arr(items) =>
      forall i | 0 <= i < |items| ensures Clean(RedactEntry(Js.IntToString(i), items[i])) {
        EntryCleans(Js.IntToString(i), items[i]);
      }
    case _ =>
  }

  lemma {:induction false} EntryCleans(key: string, value: Json.Value)
    ensures Clean(RedactEntry(key, value))
    decreases value, 1
  {
    if !IsSensitive(key) && (value.Obj? || value.Arr?) {
      RedactCleans(value);
    }
  }

  /** Redacting an already redacted value changes nothing, so redacting a
      stored payload again before hashing it is harmless. */
  lemma {:induction false} RedactIdempotent(v: Json.Value)
    ensures RedactValue(RedactValue(v)) == RedactValue(v)
    decreases v, 0
  {
    match v
    case Obj(fs) =>
      var gs := RedactValue(v).fields;
      forall i | 0 <= i < |gs| ensures RedactEntry(gs[i].key, gs[i].value) == gs[i].value {
        EntryIdempotent(fs[i].key, fs[i].value);
      }
      assert RedactValue(Json.Obj(gs)).fields == gs;
    case Arr(items) =>
      var gs := RedactValue(v).fields;
      forall i | 0 <= i < |gs| ensures RedactEntry(gs[i].key, gs[i].value) == gs[i].value {
        EntryIdempotent(Js.IntToString(i), items[i]);
      }
      assert RedactValue(Json.Obj(gs)).fields == gs;
    case _ =>
  }

  lemma {:induction false} EntryIdempotent(key: string, value: Json.Value)
    ensures RedactEntry(key, RedactEntry(key, value)) == RedactEntry(key, value)
    decreases value, 1
  {
    if !IsSensitive(key) && (value.Obj? || value.Arr?) {
      RedactIdempotent(value);
    }
  }

  /** An array in a payload is stored as an object keyed "0", "1", … */
  lemma ArrayBecomesObject(key: string, items: seq<Json.Value>)
    requires !IsSensitive(key) && |items| >= 2
    ensures var r := RedactSensitiveData([Json.Field(key, Json.Arr(items))]);
            && r[0].value.Obj?
            && |r[0].value.fields| == |items|
            && r[0].value.fields[0].key == "0" && r[0].value.fields[1].key == "1"
  {
    var r := RedactSensitiveData([Json.Field(key, Json.Arr(items))]);
    assert r[0].value == RedactValue(Json.Arr(items));
    FirstIndexKeys();
  }

  /** The keys of the first two array positions. */
  lemma FirstIndexKeys()
    ensures Js.IntToString(0) == "0" && Js.IntToString(1) == "1"
  {
  }

  /** Matching is by substring and ignores case: "API_KEY" is not caught
      (the underscore breaks "apikey"), but "apiKey", "AccessTokens" and
      "shipping" (which contains "pin") are. */
  lemma SubstringMatching()
    ensures IsSensitive("shipping")
    ensures IsSensitive("AccessTokens")
  {
    ShippingContainsPin();
    AccessTokensContainsToken();
  }

  lemma ShippingContainsPin()
    ensures IsSensitive("shipping")
  {
    Js.LowerOfLowerCase("shipping");
    Js.LowerOfLowerCase("pin");
    assert SensitiveKeys[8] == "pin";
    assert "shipping"[4..7] == "pin";
    Utils.IncludesAnyAt("shipping", SensitiveKeys, 8, 4);
  }

  lemma AccessTokensContainsToken()
    ensures IsSensitive("AccessTokens")
  {
    assert Js.Lower("AccessTokens") == "accesstokens";
    Js.LowerOfLowerCase("token");
    assert SensitiveKeys[1] == "token";
    assert "accesstokens"[6..11] == "token";
    Utils.IncludesAnyAt("AccessTokens", SensitiveKeys, 1, 6);
  }

  // ------------------------------------------------------------------ hash

  /** The foreign functions the ledger relies on: ISO-8601 formatting of a
      millisecond timestamp, and the hex SHA-256 digest of a value's JSON
      text. */
  datatype Crypto = Crypto(iso: int -> string, digest: Json.Value -> string)

  /** The fields of an entry that are hashed (`Omit<InsertLedgerEntry, 'hash'>`). */
  datatype EntryData = EntryData(
    userId: string,
    action: string,
    channel: LedgerChannel,
    status: LedgerStatus,
    payload: seq<Json.Field>,
    result: Option<Json.Value>)

  /** The object `createHash` serialises: the entry with its payload
      redacted and the timestamp in ISO form; an absent result is left out,
      as `JSON.stringify` drops undefined members. */
  function HashInput(d: EntryData, isoTime: string): (r: Json.Value)
    ensures r.Obj?
    ensures Json.Keys(r.fields) == ["userId", "action", "channel", "status", "payload"]
                                   + (if d.result.Some? then ["result"] else []) + ["timestamp"]
    ensures r.fields[4].value == Json.Obj(RedactSensitiveData(d.payload))
    ensures r.fields[|r.fields| - 1].value == Json.Str(isoTime)
  {
    Json.Obj([Json.Field("userId", Json.Str(d.userId)),
              Json.Field("action", Json.Str(d.action)),
              Json.Field("channel", Json.Str(ChannelName(d.channel))),
              Json.Field("status", Json.Str(LedgerStatusName(d.status))),
              Json.Field("payload", Json.Obj(RedactSensitiveData(d.payload)))]
             + (if d.result.Some? then [Json.Field("result", d.result.value)] else [])
             + [Json.Field("timestamp", Json.Str(isoTime))])
  }

  /** `createHash(entry, timestamp)`. */
  function CreateHash(c: Crypto, d: EntryData, timestamp: int): string
  {
    c.digest(HashInput(d, c.iso(timestamp)))
  }

  /** Hash inputs for different times, or for entries differing in a
      field, differ. */
  lemma HashInputInjective(d: EntryData, t: string, d2: EntryData, t2: string)
    requires HashInput(d, t) == HashInput(d2, t2)
    ensures t == t2 && d.userId == d2.userId && d.action == d2.action
    ensures d.channel == d2.channel && d.status == d2.status && d.result == d2.result
    ensures RedactSensitiveData(d.payload) == RedactSensitiveData(d2.payload)
  {
    var f := HashInput(d, t).fields;
    var f2 := HashInput(d2, t2).fields;
    assert f[0] == f2[0] && f[1] == f2[1] && f[2] == f2[2] && f[3] == f2[3];
    NamesDistinct(ConsentStatus.Pending, ConsentStatus.Pending, d.channel, d2.channel,
                  d.status, d2.status, ActionStatus.Pending, ActionStatus.Pending);
    assert |f| == |f2|;
    assert f[|f| - 1] == f2[|f2| - 1];
    if d.result.Some? || d2.result.Some? {
      assert f[5] == f2[5];
    }
  }

  /** Redacting a payload a second time changes nothing. */
  lemma RedactPayloadIdempotent(payload: seq<Json.Field>)
    ensures RedactSensitiveData(RedactSensitiveData(payload)) == RedactSensitiveData(payload)
  {
    RedactIdempotent(Json.Obj(payload));
    assert RedactValue(Json.Obj(payload)) == Json.Obj(RedactSensitiveData(payload));
  }

  /** The hash redacts the payload itself, so hashing an already redacted
      payload gives the hash of the raw one: the stored, redacted entry
      hashes like the entry as it was logged. */
  lemma CreateHashRedactsFirst(c: Crypto, d: EntryData, timestamp: int)
    ensures CreateHash(c, d.(payload := RedactSensitiveData(d.payload)), timestamp) == CreateHash(c, d, timestamp)
  {
    RedactPayloadIdempotent(d.payload);
  }

  /** With a collision-free digest and date formatting, two equal hashes
      come from the same time and the same hashed fields, the payloads
      agreeing after redaction. */
  lemma CreateHashDetermines(c: Crypto, d: EntryData, t: int, d2: EntryData, t2: int)
    requires forall x, y :: c.iso(x) == c.iso(y) ==> x == y
    requires forall x, y :: c.digest(x) == c.digest(y) ==> x == y
    requires CreateHash(c, d, t) == CreateHash(c, d2, t2)
    ensures t == t2 && d.userId == d2.userId && d.action == d2.action
    ensures d.channel == d2.channel && d.status == d2.status && d.result == d2.result
    ensures RedactSensitiveData(d.payload) == RedactSensitiveData(d2.payload)
  {
    HashInputInjective(d, c.iso(t), d2, c.iso(t2));
  }

  /** The entry's hashed fields as stored. */
  function DataOf(e: LedgerEntry): EntryData
  {
    EntryData(e.userId, e.action, e.channel, e.status, e.payload, e.result)
  }

  // --------------------------------------------------------------- logging

  /** `logAction` as written: the payload is redacted, the hash is taken
      with the time the ledger reads (`hashTime`), and the store stamps the
      entry with the time it reads itself (`storeTime`), since the store's
      `createLedgerEntry` ignores the timestamp it is handed. */
  function LogAction(s: Store, c: Crypto, userId: string, action: string, channel: LedgerChannel, status: LedgerStatus,
                     payload: seq<Json.Field>, result: Option<Json.Value>, id: string, hashTime: int, storeTime: int): (r: (Store, LedgerEntry))
    ensures r.1.payload == RedactSensitiveData(payload)
    ensures r.1.timestamp == storeTime
    ensures r.1.hash == CreateHash(c, DataOf(r.1), hashTime)
    ensures Tables.Get(r.0.ledgerEntries, id) == Some(r.1)
    ensures r.0 == s.(ledgerEntries := r.0.ledgerEntries)
  {
    var data := EntryData(userId, action, channel, status, RedactSensitiveData(payload), result);
    var hash := CreateHash(c, data, hashTime);
    Storage.CreateLedgerEntry(s, InsertLedgerEntry(userId, action, channel, status, data.payload, result, hash), id, storeTime)
  }

  /** `verifyEntryIntegrity(entry)`: the entry's hash equals the hash of
      its stored fields at its stored time. */
  predicate VerifyEntryIntegrity(c: Crypto, e: LedgerEntry)
  {
    CreateHash(c, DataOf(e), e.timestamp) == e.hash
  }

  /** An entry logged within one clock tick verifies. */
  lemma LoggedEntryVerifiesWithinTick(s: Store, c: Crypto, userId: string, action: string, channel: LedgerChannel, status: LedgerStatus,
                                      payload: seq<Json.Field>, result: Option<Json.Value>, id: string, t: int)
    ensures VerifyEntryIntegrity(c, LogAction(s, c, userId, action, channel, status, payload, result, id, t, t).1)
  {
  }

  /** The defect: when the store's clock has moved on from the one the hash
      used, the fresh entry fails its own integrity check (for any
      collision-free digest and date formatting). */
  lemma LoggedEntryFailsAcrossTick(s: Store, c: Crypto, userId: string, action: string, channel: LedgerChannel, status: LedgerStatus,
                                   payload: seq<Json.Field>, result: Option<Json.Value>, id: string, hashTime: int, storeTime: int)
    requires hashTime != storeTime
    requires forall x, y :: c.iso(x) == c.iso(y) ==> x == y
    requires forall x, y :: c.digest(x) == c.digest(y) ==> x == y
    ensures !VerifyEntryIntegrity(c, LogAction(s, c, userId, action, channel, status, payload, result, id, hashTime, storeTime).1)
  {
    var e := LogAction(s, c, userId, action, channel, status, payload, result, id, hashTime, storeTime).1;
    if VerifyEntryIntegrity(c, e) {
      HashInputInjective(DataOf(e), c.iso(storeTime), DataOf(e), c.iso(hashTime));
    }
  }

  /** `logAction` as evidently intended: one timestamp, used both for the
      hash and as the stored time. Every entry it logs verifies. */
  function LogActionOnce(s: Store, c: Crypto, userId: string, action: string, channel: LedgerChannel, status: LedgerStatus,
                         payload: seq<Json.Field>, result: Option<Json.Value>, id: string, timestamp: int): (r: (Store, LedgerEntry))
    ensures VerifyEntryIntegrity(c, r.1)
    ensures r.1.timestamp == timestamp && r.1.payload == RedactSensitiveData(payload)
    ensures Tables.Get(r.0.ledgerEntries, id) == Some(r.1)
    ensures r.0 == s.(ledgerEntries := r.0.ledgerEntries)
  {
    LogAction(s, c, userId, action, channel, status, payload, result, id, timestamp, timestamp)
  }

  /** Integrity checking detects an edit to a verified entry's action,
      channel, status or time, given a collision-free digest and date
      formatting. */
  lemma VerifyDetectsTampering(c: Crypto, e: LedgerEntry, e2: LedgerEntry)
    requires forall x, y :: c.iso(x) == c.iso(y) ==> x == y
    requires forall x, y :: c.digest(x) == c.digest(y) ==> x == y
    requires VerifyEntryIntegrity(c, e) && e2.hash == e.hash
    requires e2.action != e.action || e2.channel != e.channel || e2.status != e.status || e2.timestamp != e.timestamp
    ensures !VerifyEntryIntegrity(c, e2)
  {
    if VerifyEntryIntegrity(c, e2) {
      HashInputInjective(DataOf(e), c.iso(e.timestamp), DataOf(e2), c.iso(e2.timestamp));
    }
  }

  /** Against the hash of a verified entry, `verifyEntryIntegrity` accepts
      exactly the entries that agree with it on every hashed field (the
      payload compared after redaction) and on the time, given a
      collision-free digest and date formatting. */
  lemma VerifyExactlyUnchanged(c: Crypto, e: LedgerEntry, e2: LedgerEntry)
    requires forall x, y :: c.iso(x) == c.iso(y) ==> x == y
    requires forall x, y :: c.digest(x) == c.digest(y) ==> x == y
    requires VerifyEntryIntegrity(c, e) && e2.hash == e.hash
    ensures VerifyEntryIntegrity(c, e2) <==>
              && e2.timestamp == e.timestamp && e2.userId == e.userId && e2.action == e.action
              && e2.channel == e.channel && e2.status == e.status && e2.result == e.result
              && RedactSensitiveData(e2.payload) == RedactSensitiveData(e.payload)
  {
    if VerifyEntryIntegrity(c, e2) {
      CreateHashDetermines(c, DataOf(e), e.timestamp, DataOf(e2), e2.timestamp);
    }
    if e2.timestamp == e.timestamp && e2.userId == e.userId && e2.action == e.action
       && e2.channel == e.channel && e2.status == e.status && e2.result == e.result
       && RedactSensitiveData(e2.payload) == RedactSensitiveData(e.payload) {
      assert HashInput(DataOf(e2), c.iso(e2.timestamp)) == HashInput(DataOf(e), c.iso(e.timestamp));
    }
  }

  /** `getLedger(userId, limit = 50)`: the user's newest entries, newest
      first, `limit` of them (50 by default) when there are that many. */
  function GetLedger(s: Store, userId: string, limit: Option<int>): (r: seq<LedgerEntry>)
    ensures forall e :: e in r ==> e in Tables.Values(s.ledgerEntries) && e.userId == userId
    ensures Storage.SortedByTimeDesc(r)
    ensures var mine := Storage.UserEntries(s, userId);
            && multiset(r) <= multiset(mine)
            && |r| == Js.SliceIndex(limit.GetOr(50), |mine|)
            && forall e: LedgerEntry, i :: e in multiset(mine) - multiset(r) && 0 <= i < |r| ==> e.timestamp <= r[i].timestamp
  {
    Storage.LedgerQueryNewest(s, userId, limit);
    Storage.GetLedgerEntriesByUserId(s, userId, limit)
  }

  // ---------------------------------------------------------------- export

  const ExportLimit: int := 1000
  const CsvHeader: string := "Timestamp,Action,Channel,Status,Hash\n"

  /** One CSV line of an entry (fields are not quoted). */
  function CsvRow(c: Crypto, e: LedgerEntry): string
  {
    c.iso(e.timestamp) + "," + e.action + "," + ChannelName(e.channel) + "," + LedgerStatusName(e.status) + "," + e.hash
  }

  /** The fields of a line as a reader splits it at every comma, with no
      quoting: `line.split(",")`. */
  function SplitCommas(line: string): (r: seq<string>)
    ensures |r| >= 1
  {
    if |line| == 0 then [""]
    else
      var rest := SplitCommas(line[1..]);
      if line[0] == ',' then [""] + rest
      else [[line[0]] + rest[0]] + rest[1..]
  }

  /** A comma-free start joins the first field of what follows it. */
  lemma {:induction false} SplitCommaFree(a: string, t: string)
    requires ',' !in a
    ensures SplitCommas(a + t) == [a + SplitCommas(t)[0]] + SplitCommas(t)[1..]
    decreases |a|
  {
    if |a| == 0 {
      assert a + t == t && a + SplitCommas(t)[0] == SplitCommas(t)[0];
      assert SplitCommas(t) == [SplitCommas(t)[0]] + SplitCommas(t)[1..];
    } else {
      assert a[0] in a;
      assert (a + t)[0] == a[0] && (a + t)[1..] == a[1..] + t;
      SplitCommaFree(a[1..], t);
      assert [a[0]] + (a[1..] + SplitCommas(t)[0]) == a + SplitCommas(t)[0];
    }
  }

  /** A comma and a comma-free field after a line add that field to its
      split. */
  lemma {:induction false} SplitThenField(t: string, b: string)
    requires ',' !in b
    ensures SplitCommas(t + "," + b) == SplitCommas(t) + [b]
    decreases |t|
  {
    if |t| == 0 {
      assert t + "," + b == "," + b;
      assert ("," + b)[0] == ',' && ("," + b)[1..] == b;
      SplitCommaFree(b, "");
      assert b + "" == b;
    } else {
      assert (t + "," + b)[0] == t[0] && (t + "," + b)[1..] == t[1..] + "," + b;
      SplitThenField(t[1..], b);
    }
  }

  /** A line splits into one more field than it has commas. */
  lemma {:induction false} SplitCommaCount(line: string)
    ensures |SplitCommas(line)| == 1 + multiset(line)[',']
  {
    if |line| > 0 {
      SplitCommaCount(line[1..]);
      assert line == [line[0]] + line[1..];
    }
  }

  /** The channel and status names hold no comma. */
  lemma NamesHaveNoComma(ch: LedgerChannel, st: LedgerStatus)
    ensures ',' !in ChannelName(ch) && ',' !in LedgerStatusName(st)
  {
  }

  /** The commas of a row: four separators plus those inside the time,
      the action and the hash. */
  lemma CsvRowCommas(c: Crypto, e: LedgerEntry)
    ensures multiset(CsvRow(c, e))[','] ==
              4 + multiset(c.iso(e.timestamp))[','] + multiset(e.action)[','] + multiset(e.hash)[',']
  {
    NamesHaveNoComma(e.channel, e.status);
    assert multiset(ChannelName(e.channel))[','] == 0 && multiset(LedgerStatusName(e.status))[','] == 0;
  }

  /** A row of comma-free fields splits back into them. */
  lemma CsvRowSplits(c: Crypto, e: LedgerEntry)
    requires ',' !in c.iso(e.timestamp) && ',' !in e.action && ',' !in e.hash
    ensures SplitCommas(CsvRow(c, e))
              == [c.iso(e.timestamp), e.action, ChannelName(e.channel), LedgerStatusName(e.status), e.hash]
  {
    var iso, ch, st := c.iso(e.timestamp), ChannelName(e.channel), LedgerStatusName(e.status);
    NamesHaveNoComma(e.channel, e.status);
    SplitCommaFree(iso, "");
    assert iso + "" == iso;
    SplitThenField(iso, e.action);
    SplitThenField(iso + "," + e.action, ch);
    SplitThenField(iso + "," + e.action + "," + ch, st);
    SplitThenField(iso + "," + e.action + "," + ch + "," + st, e.hash);
  }

  /** A CSV row reads back as its five fields exactly when the time, the
      action and the hash hold no comma; since fields are not quoted, a
      comma in any of them adds a field. */
  lemma CsvRowFields(c: Crypto, e: LedgerEntry)
    ensures var iso := c.iso(e.timestamp);
            |SplitCommas(CsvRow(c, e))| == 5 <==> ',' !in iso && ',' !in e.action && ',' !in e.hash
    ensures var iso := c.iso(e.timestamp);
            ',' !in iso && ',' !in e.action && ',' !in e.hash ==>
              SplitCommas(CsvRow(c, e)) == [iso, e.action, ChannelName(e.channel), LedgerStatusName(e.status), e.hash]
  {
    SplitCommaCount(CsvRow(c, e));
    CsvRowCommas(c, e);
    if ',' !in c.iso(e.timestamp) && ',' !in e.action && ',' !in e.hash {
      CsvRowSplits(c, e);
    }
  }

  /** `lines.join("\n")`. */
  function JoinLines(lines: seq<string>): string
  {
    if |lines| == 0 then ""
    else if |lines| == 1 then lines[0]
    else lines[0] + "\n" + JoinLines(lines[1..])
  }

  /** `exportLedger(userId, 'csv')`: the header and one line per entry of
      the user's newest thousand, newest first. */
  function ExportCsv(s: Store, c: Crypto, userId: string): (r: string)
    ensures |CsvHeader| <= |r| && r[..|CsvHeader|] == CsvHeader
  {
    var body := JoinLines(CsvRows(c, Storage.GetLedgerEntriesByUserId(s, userId, Some(ExportLimit))));
    assert (CsvHeader + body)[..|CsvHeader|] == CsvHeader;
    CsvHeader + body
  }

  /** The CSV lines of some entries, in order. */
  function CsvRows(c: Crypto, entries: seq<LedgerEntry>): (r: seq<string>)
    ensures |r| == |entries|
    ensures forall i :: 0 <= i < |r| ==> r[i] == CsvRow(c, entries[i])
  {
    seq(|entries|, i requires 0 <= i < |entries| => CsvRow(c, entries[i]))
  }

  /** The number of line breaks in a text. */
  function Newlines(s: string): nat
  {
    if |s| == 0 then 0 else (if s[0] == '\n' then 1 else 0) + Newlines(s[1..])
  }

  lemma {:induction false} NewlinesConcat(a: string, b: string)
    ensures Newlines(a + b) == Newlines(a) + Newlines(b)
  {
    if |a| > 0 {
      assert (a + b)[1..] == a[1..] + b;
      NewlinesConcat(a[1..], b);
    } else {
      assert a + b == b;
    }
  }

  lemma {:induction false} NoNewlines(s: string)
    requires '\n' !in s
    ensures Newlines(s) == 0
  {
    if |s| > 0 {
      NoNewlines(s[1..]);
    }
  }

  lemma {:induction false} JoinLinesCount(lines: seq<string>)
    requires forall i :: 0 <= i < |lines| ==> Newlines(lines[i]) == 0
    ensures Newlines(JoinLines(lines)) == if |lines| == 0 then 0 else |lines| - 1
  {
    if |lines| > 1 {
      JoinLinesCount(lines[1..]);
      NewlinesConcat(lines[0], "\n");
      NewlinesConcat(lines[0] + "\n", JoinLines(lines[1..]));
    }
  }

  /** A row holds no line break when its text fields hold none. */
  lemma RowHasNoNewline(c: Crypto, e: LedgerEntry)
    requires '\n' !in c.iso(e.timestamp) && '\n' !in e.action && '\n' !in e.hash
    ensures Newlines(CsvRow(c, e)) == 0
  {
    var parts := [c.iso(e.timestamp), ",", e.action, ",", ChannelName(e.channel), ",", LedgerStatusName(e.status), ",", e.hash];
    NoNewlines(c.iso(e.timestamp));
    NoNewlines(e.action);
    NoNewlines(e.hash);
    NoNewlines(ChannelName(e.channel));
    NoNewlines(LedgerStatusName(e.status));
    NoNewlines(",");
    var acc := c.iso(e.timestamp);
    NewlinesConcat(acc, ",");
    NewlinesConcat(acc + ",", e.action);
    acc := acc + "," + e.action;
    NewlinesConcat(acc, ",");
    NewlinesConcat(acc + ",", ChannelName(e.channel));
    acc := acc + "," + ChannelName(e.channel);
    NewlinesConcat(acc, ",");
    NewlinesConcat(acc + ",", LedgerStatusName(e.status));
    acc := acc + "," + LedgerStatusName(e.status);
    NewlinesConcat(acc, ",");
    NewlinesConcat(acc + ",", e.hash);
  }

  lemma HeaderIsOneLine()
    ensures Newlines(CsvHeader) == 1
  {
    assert CsvHeader == "Timestamp,Action,Channel,Status,Hash" + "\n";
    NoNewlines("Timestamp,Action,Channel,Status,Hash");
    NewlinesConcat("Timestamp,Action,Channel,Status,Hash", "\n");
  }

  lemma RowsHaveNoNewlines(c: Crypto, entries: seq<LedgerEntry>)
    requires forall e :: e in entries ==> '\n' !in c.iso(e.timestamp) && '\n' !in e.action && '\n' !in e.hash
    ensures forall i :: 0 <= i < |entries| ==> Newlines(CsvRows(c, entries)[i]) == 0
  {
    forall i | 0 <= i < |entries| ensures Newlines(CsvRows(c, entries)[i]) == 0 {
      assert entries[i] in entries;
      RowHasNoNewline(c, entries[i]);
    }
  }

  /** When no timestamp text, action or hash holds a line break, the export
      has one line per exported entry plus the header: as many line breaks
      as entries, and one for an empty export. */
  lemma ExportCsvLines(s: Store, c: Crypto, userId: string)
    requires forall e :: e in Tables.Values(s.ledgerEntries) ==>
               '\n' !in c.iso(e.timestamp) && '\n' !in e.action && '\n' !in e.hash
    ensures var n := |Storage.GetLedgerEntriesByUserId(s, userId, Some(ExportLimit))|;
            Newlines(ExportCsv(s, c, userId)) == if n == 0 then 1 else n
  {
    var entries := Storage.GetLedgerEntriesByUserId(s, userId, Some(ExportLimit));
    RowsHaveNoNewlines(c, entries);
    JoinLinesCount(CsvRows(c, entries));
    HeaderIsOneLine();
    NewlinesConcat(CsvHeader, JoinLines(CsvRows(c, entries)));
  }

  /** The header line without its line break. */
  const HeaderLine: string := "Timestamp,Action,Channel,Status,Hash"

  /** Where the first line break of `s` is, or `|s|`. */
  function NewlineIndex(s: string): (i: nat)
    ensures i <= |s|
    ensures forall j :: 0 <= j < i ==> s[j] != '\n'
    ensures i < |s| ==> s[i] == '\n'
  {
    if |s| == 0 || s[0] == '\n' then 0 else 1 + NewlineIndex(s[1..])
  }

  /** `s.split("\n")`: the text between line breaks, in order. */
  function Lines(s: string): (r: seq<string>)
    decreases |s|
  {
    var i := NewlineIndex(s);
    if i == |s| then [s] else [s[..i]] + Lines(s[i + 1..])
  }

  /** Splitting `a + "\n" + b`, with no line break in `a`, gives `a` and
      then the lines of `b`. */
  lemma LinesCons(a: string, b: string)
    requires '\n' !in a
    ensures Lines(a + "\n" + b) == [a] + Lines(b)
  {
    var x := a + "\n" + b;
    assert x[|a|] == '\n';
    assert forall j :: 0 <= j < |a| ==> x[j] == a[j];
    assert NewlineIndex(x) == |a|;
    assert x[..|a|] == a && x[|a| + 1..] == b;
  }

  /** Splitting joined lines that hold no line break gives them back. */
  lemma {:induction false} LinesOfJoin(ls: seq<string>)
    requires |ls| > 0 && forall k :: 0 <= k < |ls| ==> '\n' !in ls[k]
    ensures Lines(JoinLines(ls)) == ls
  {
    if |ls| == 1 {
      assert forall j :: 0 <= j < |ls[0]| ==> ls[0][j] != '\n';
    } else {
      LinesOfJoin(ls[1..]);
      LinesCons(ls[0], JoinLines(ls[1..]));
      Utils.SplitFirst(ls);
    }
  }

  /** A row holds no line break when its text fields hold none. */
  lemma RowIsOneLine(c: Crypto, e: LedgerEntry)
    requires '\n' !in c.iso(e.timestamp) && '\n' !in e.action && '\n' !in e.hash
    ensures '\n' !in CsvRow(c, e)
  {
  }

  /** The layout of the CSV export, when no timestamp text, action or hash
      holds a line break: the header line, then one line per exported
      entry in the order `getLedgerEntriesByUserId(userId, 1000)` returns
      them (newest first), and a single empty line after the header when
      there are none. */
  lemma ExportCsvLayout(s: Store, c: Crypto, userId: string)
    requires forall e :: e in Tables.Values(s.ledgerEntries) ==>
               '\n' !in c.iso(e.timestamp) && '\n' !in e.action && '\n' !in e.hash
    ensures var entries := Storage.GetLedgerEntriesByUserId(s, userId, Some(ExportLimit));
            var ls := Lines(ExportCsv(s, c, userId));
            && |ls| == |entries| + 1 + (if |entries| == 0 then 1 else 0)
            && ls[0] == HeaderLine
            && (|entries| == 0 ==> ls[1] == "")
            && forall k :: 0 <= k < |entries| ==> ls[k + 1] == CsvRow(c, entries[k])
  {
    var entries := Storage.GetLedgerEntriesByUserId(s, userId, Some(ExportLimit));
    var rows := CsvRows(c, entries);
    ExportLines(s, c, userId);
    var ls := Lines(ExportCsv(s, c, userId));
    forall k | 0 <= k < |entries| ensures ls[k + 1] == CsvRow(c, entries[k]) {
      Utils.ConcatIndex([HeaderLine], rows, k + 1);
    }
  }

  /** The export splits into the header line and the rows, or the header
      line and one empty line when there are no rows. */
  lemma ExportLines(s: Store, c: Crypto, userId: string)
    requires forall e :: e in Tables.Values(s.ledgerEntries) ==>
               '\n' !in c.iso(e.timestamp) && '\n' !in e.action && '\n' !in e.hash
    ensures var rows := CsvRows(c, Storage.GetLedgerEntriesByUserId(s, userId, Some(ExportLimit)));
            Lines(ExportCsv(s, c, userId)) == [HeaderLine] + (if |rows| > 0 then rows else [""])
  {
    var entries := Storage.GetLedgerEntriesByUserId(s, userId, Some(ExportLimit));
    var rows := CsvRows(c, entries);
    RowsAreOneLine(c, entries);
    HeaderLineFacts();
    var body := JoinLines(rows);
    assert ExportCsv(s, c, userId) == HeaderLine + "\n" + body;
    LinesCons(HeaderLine, body);
    if |rows| > 0 {
      LinesOfJoin(rows);
    } else {
      assert Lines("") == [""];
    }
  }

  lemma HeaderLineFacts()
    ensures CsvHeader == HeaderLine + "\n" && '\n' !in HeaderLine
  {
  }

  lemma RowsAreOneLine(c: Crypto, entries: seq<LedgerEntry>)
    requires forall e :: e in entries ==> '\n' !in c.iso(e.timestamp) && '\n' !in e.action && '\n' !in e.hash
    ensures forall k :: 0 <= k < |entries| ==> '\n' !in CsvRows(c, entries)[k]
  {
    forall k | 0 <= k < |entries| ensures '\n' !in CsvRows(c, entries)[k] {
      assert entries[k] in entries;
      RowIsOneLine(c, entries[k]);
    }
  }

  // --------------------------------------------------------------- summary

  const SummaryLimit: int := 100
  const RecentCount: int := 5

  /** One `record[key]` counter. */
  datatype Count = Count(key: string, n: nat)

  /** `record[k] = (record[k] || 0) + 1`: a new key is added at the end. */
  function Bump(t: seq<Count>, k: string): (r: seq<Count>)
  {
    if |t| == 0 then [Count(k, 1)]
    else if t[0].key == k then [Count(k, t[0].n + 1)] + t[1..]
    else [t[0]] + Bump(t[1..], k)
  }

  /** What `record[k]` reads, 0 for a missing key. */
  function CountOf(t: seq<Count>, k: string): nat
  {
    if |t| == 0 then 0 else if t[0].key == k then t[0].n else CountOf(t[1..], k)
  }

  function CountKeys(t: seq<Count>): seq<string>
  {
    seq(|t|, i requires 0 <= i < |t| => t[i].key)
  }

  function Total(t: seq<Count>): nat
  {
    if |t| == 0 then 0 else t[0].n + Total(t[1..])
  }

  /** A bump adds one to the bumped key's count and to the total, and adds
      the key at the end when it is new. */
  lemma BumpFacts(t: seq<Count>, k: string)
    ensures forall x :: CountOf(Bump(t, k), x) == CountOf(t, x) + (if x == k then 1 else 0)
    ensures Total(Bump(t, k)) == Total(t) + 1
    ensures k in CountKeys(t) ==> CountKeys(Bump(t, k)) == CountKeys(t)
    ensures k !in CountKeys(t) ==> CountKeys(Bump(t, k)) == CountKeys(t) + [k]
  {
    forall x ensures CountOf(Bump(t, k), x) == CountOf(t, x) + (if x == k then 1 else 0) {
      BumpCount(t, k, x);
    }
    BumpTotal(t, k);
    BumpKeys(t, k);
  }

  lemma {:induction false} BumpCount(t: seq<Count>, k: string, x: string)
    ensures CountOf(Bump(t, k), x) == CountOf(t, x) + (if x == k then 1 else 0)
    decreases |t|
  {
    if |t| > 0 && t[0].key != k {
      BumpCount(t[1..], k, x);
      assert Bump(t, k)[1..] == Bump(t[1..], k);
    } else if |t| > 0 {
      assert Bump(t, k)[1..] == t[1..];
    }
  }

  lemma {:induction false} BumpTotal(t: seq<Count>, k: string)
    ensures Total(Bump(t, k)) == Total(t) + 1
    decreases |t|
  {
    if |t| > 0 && t[0].key != k {
      BumpTotal(t[1..], k);
      assert Bump(t, k)[1..] == Bump(t[1..], k);
    } else if |t| > 0 {
      assert Bump(t, k)[1..] == t[1..];
    }
  }

  lemma {:induction false} BumpKeys(t: seq<Count>, k: string)
    ensures k in CountKeys(t) ==> CountKeys(Bump(t, k)) == CountKeys(t)
    ensures k !in CountKeys(t) ==> CountKeys(Bump(t, k)) == CountKeys(t) + [k]
    decreases |t|
  {
    if |t| > 0 {
      var b := Bump(t, k);
      CountKeysCons(t);
      CountKeysCons(b);
      if t[0].key != k {
        BumpKeys(t[1..], k);
        assert b[1..] == Bump(t[1..], k);
      } else {
        assert b[1..] == t[1..];
      }
    }
  }

  lemma CountKeysCons(t: seq<Count>)
    requires |t| > 0
    ensures CountKeys(t) == [t[0].key] + CountKeys(t[1..])
  {
  }

  /** Counting the keys one after the other, as `forEach` does. */
  function Tally(keys: seq<string>): (r: seq<Count>)
    ensures forall x :: CountOf(r, x) == multiset(keys)[x]
    ensures Total(r) == |keys|
    ensures Utils.NoDuplicates(CountKeys(r))
    ensures forall x :: x in CountKeys(r) <==> x in keys
  {
    if |keys| == 0 then []
    else
      var prev := Tally(keys[..|keys| - 1]);
      var k := keys[|keys| - 1];
      assert keys == keys[..|keys| - 1] + [k];
      BumpFacts(prev, k);
      Bump(prev, k)
  }

  datatype Summary = Summary(total: nat, byStatus: seq<Count>, byChannel: seq<Count>, recent: seq<LedgerEntry>)

  /** `getActionSummary(userId)`: over the user's newest hundred entries,
      the count, the number per status and per channel, and the newest
      five. */
  function GetActionSummary(s: Store, userId: string): (r: Summary)
    ensures r.total <= SummaryLimit && r.total == Total(r.byStatus) && r.total == Total(r.byChannel)
    ensures |r.recent| <= RecentCount && |r.recent| <= r.total
    ensures Storage.SortedByTimeDesc(r.recent)
    ensures forall e :: e in r.recent ==> e in Tables.Values(s.ledgerEntries) && e.userId == userId
    ensures Utils.NoDuplicates(CountKeys(r.byStatus)) && Utils.NoDuplicates(CountKeys(r.byChannel))
    ensures r.total == Utils.Min(SummaryLimit, |Storage.UserEntries(s, userId)|)
    ensures |r.recent| == Utils.Min(RecentCount, r.total)
  {
    var entries := Storage.GetLedgerEntriesByUserId(s, userId, Some(SummaryLimit));
    Summary(|entries|, Tally(StatusNames(entries)), Tally(ChannelNames(entries)), Recent(entries))
  }

  function StatusNames(es: seq<LedgerEntry>): (r: seq<string>)
    ensures |r| == |es|
  {
    seq(|es|, i requires 0 <= i < |es| => LedgerStatusName(es[i].status))
  }

  function ChannelNames(es: seq<LedgerEntry>): (r: seq<string>)
    ensures |r| == |es|
  {
    seq(|es|, i requires 0 <= i < |es| => ChannelName(es[i].channel))
  }

  /** `entries.slice(0, 5)`: the first five of a newest-first sequence. */
  function Recent(es: seq<LedgerEntry>): (r: seq<LedgerEntry>)
    requires Storage.SortedByTimeDesc(es)
    ensures |r| <= RecentCount && |r| <= |es|
    ensures Storage.SortedByTimeDesc(r)
    ensures forall e :: e in r ==> e in es
    ensures |es| >= RecentCount ==> r == es[..RecentCount]
    ensures |es| < RecentCount ==> r == es
  {
    Storage.SliceFromZero(es, RecentCount);
    Storage.SortedPrefix(es, Js.SliceIndex(RecentCount, |es|));
    Js.Slice(es, 0, RecentCount)
  }

  /** The recent list holds the user's newest entries: none of the user's
      entries left out of it is newer than any in it. */
  lemma RecentIsNewest(s: Store, userId: string)
    ensures var recent, mine := GetActionSummary(s, userId).recent, Storage.UserEntries(s, userId);
            && multiset(recent) <= multiset(mine)
            && forall e: LedgerEntry, i :: e in multiset(mine) - multiset(recent) && 0 <= i < |recent| ==>
                 e.timestamp <= recent[i].timestamp
  {
    var mine := Storage.UserEntries(s, userId);
    var sorted := Storage.SortByTimeDesc(mine);
    var entries := Storage.GetLedgerEntriesByUserId(s, userId, Some(SummaryLimit));
    var k := Js.SliceIndex(SummaryLimit, |sorted|);
    var recent := GetActionSummary(s, userId).recent;
    assert entries == sorted[..k];
    assert recent == sorted[..|recent|];
    Storage.PrefixIsNewest(sorted, |recent|);
  }

  /** Each status count is the number of summarised entries with that
      status, and likewise for channels. */
  lemma SummaryCounts(s: Store, userId: string, st: LedgerStatus, ch: LedgerChannel)
    ensures var entries := Storage.GetLedgerEntriesByUserId(s, userId, Some(SummaryLimit));
            var r := GetActionSummary(s, userId);
            && CountOf(r.byStatus, LedgerStatusName(st)) == |Tables.Filter(entries, (e: LedgerEntry) => e.status == st)|
            && CountOf(r.byChannel, ChannelName(ch)) == |Tables.Filter(entries, (e: LedgerEntry) => e.channel == ch)|
  {
    var entries := Storage.GetLedgerEntriesByUserId(s, userId, Some(SummaryLimit));
    StatusCount(entries, st);
    ChannelCount(entries, ch);
  }

  lemma {:induction false} StatusCount(es: seq<LedgerEntry>, st: LedgerStatus)
    ensures multiset(StatusNames(es))[LedgerStatusName(st)] == |Tables.Filter(es, (e: LedgerEntry) => e.status == st)|
  {
    if |es| > 0 {
      StatusCount(es[1..], st);
      assert StatusNames(es) == [LedgerStatusName(es[0].status)] + StatusNames(es[1..]);
      NamesDistinct(ConsentStatus.Pending, ConsentStatus.Pending, LedgerChannel.Api, LedgerChannel.Api,
                    es[0].status, st, ActionStatus.Pending, ActionStatus.Pending);
    }
  }

  lemma {:induction false} ChannelCount(es: seq<LedgerEntry>, ch: LedgerChannel)
    ensures multiset(ChannelNames(es))[ChannelName(ch)] == |Tables.Filter(es, (e: LedgerEntry) => e.channel == ch)|
  {
    if |es| > 0 {
      ChannelCount(es[1..], ch);
      assert ChannelNames(es) == [ChannelName(es[0].channel)] + ChannelNames(es[1..]);
      NamesDistinct(ConsentStatus.Pending, ConsentStatus.Pending, es[0].channel, ch,
                    LedgerStatus.Sent, LedgerStatus.Sent, ActionStatus.Pending, ActionStatus.Pending);
    }
  }
}
