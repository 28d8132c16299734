/** The append-only record log of server/ledger/storage.ts: records are
    pushed at the end and read back as the newest `limit` of them. */
module RecordLog {
  import opened Wrappers
  import Json
  import Js

  /** `LedgerRecord`; the source's `type` field is `recordType` here. */
  datatype LedgerRecord = LedgerRecord(id: string, recordType: string, payload: Json.Value, createdAt: string)

  type Log = seq<LedgerRecord>

  const DefaultRecordLimit: int := 10

  /** `addLedgerRecord(record)`: the record goes after every earlier one. */
  function AddLedgerRecord(log: Log, rec: LedgerRecord): (r: Log)
    ensures |r| == |log| + 1
    ensures r[..|log|] == log && r[|log|] == rec
  {
    log + [rec]
  }

  /** `getLedgerRecords(limit = 10)` as written: `slice(-limit)`. A
      positive limit keeps the last `limit` records; since `-0` is `0`, a
      limit of 0 keeps them all, and a negative limit drops that many from
      the front. */
  function GetLedgerRecords(log: Log, limit: Option<int>): (r: Log)
    ensures var k := limit.GetOr(DefaultRecordLimit);
            && (k > 0 ==> r == log[if k < |log| then |log| - k else 0..])
            && (k == 0 ==> r == log)
            && (k < 0 ==> r == log[if -k < |log| then -k else |log|..])
  {
    var k := limit.GetOr(DefaultRecordLimit);
    Js.Slice(log, -k, |log|)
  }

  /** With the default limit the newest ten come back, oldest first. */
  lemma DefaultKeepsTen(log: Log)
    requires |log| >= DefaultRecordLimit
    ensures var r := GetLedgerRecords(log, None);
            |r| == 10 && r[9] == log[|log| - 1] && r[0] == log[|log| - 10]
  {
  }

  /** Reading right after an append returns the appended record last. */
  lemma NewestAfterAdd(log: Log, rec: LedgerRecord, k: int)
    requires k > 0
    ensures var r := GetLedgerRecords(AddLedgerRecord(log, rec), Some(k));
            |r| > 0 && r[|r| - 1] == rec
  {
  }

  /** The limit-0 defect: asking for no records returns every record. */
  lemma ZeroLimitReturnsAll(rec: LedgerRecord)
    ensures GetLedgerRecords([rec, rec], Some(0)) == [rec, rec]
  {
  }

  /** `getLedgerRecords` as evidently intended: at most `limit` records,
      none for a limit of zero or below, always the newest ones. */
  function GetLedgerRecordsAtMost(log: Log, limit: Option<int>): (r: Log)
    ensures var k := limit.GetOr(DefaultRecordLimit);
            && |r| == (if k <= 0 then 0 else if k < |log| then k else |log|)
            && r == log[|log| - |r|..]
  {
    var k := limit.GetOr(DefaultRecordLimit);
    if k <= 0 then [] else Js.Slice(log, -k, |log|)
  }

  /** For a positive limit the corrected read agrees with the original. */
  lemma AtMostAgreesForPositive(log: Log, k: int)
    requires k > 0
    ensures GetLedgerRecordsAtMost(log, Some(k)) == GetLedgerRecords(log, Some(k))
  {
  }
}
