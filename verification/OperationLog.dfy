/**
 The durable operation history: one row per idempotency key, and the queries the
 operation log issues against it.  Each query is one atomic statement.
*/
module OperationLog {
  import opened Common
  import opened Ddl
  import opened Commands

  datatype Status = Running | Succeeded | Failed

  /**
   The operation checksum: SHA-256 of the canonical preimage of (command type, command,
   statement list), taken to be injective on that triple.
  */
  datatype Checksum = Checksum(command: Command, statements: seq<Stmt>)

  datatype Record = Record(id: nat, key: string, command: Command, checksum: Checksum, status: Status,
                           errorCode: Option<string>, result: Option<nat>)

  /** Rows in insertion order. */
  type Log = seq<Record>

  datatype Rejection = InvalidKey | KeyReused

  datatype BeginOutcome =
    | Accepted(record: Record, retryOfFailure: bool)
    | Replay(record: Record)
    | InProgress(record: Record)
    | Rejected(reason: Rejection)

  const MAX_IDEMPOTENCY_KEY_LENGTH := 200

  predicate Alphanumeric(c: char) {
    'a' <= c <= 'z' || 'A' <= c <= 'Z' || '0' <= c <= '9'
  }

  predicate ValidKey(key: string) {
    && 1 <= |key| <= MAX_IDEMPOTENCY_KEY_LENGTH
    && Alphanumeric(key[0])
    && forall i | 0 <= i < |key| :: Alphanumeric(key[i]) || key[i] in "._-"
  }

  // ---------- queries ----------

  function Find(log: Log, key: string): (found: Option<Record>)
    ensures found.Some? ==> found.value in log && found.value.key == key
    ensures found.None? ==> forall r <- log :: r.key != key
  {
    if log == [] then None
    else if log[0].key == key then Some(log[0])
    else Find(log[1..], key)
  }

  function FreshRecord(id: nat, key: string, checksum: Checksum): Record {
    Record(id, key, checksum.command, checksum, Running, None, None)
  }

  /** INSERT ... ON CONFLICT (idempotency_key) DO NOTHING RETURNING. */
  function InsertRow(log: Log, id: nat, key: string, checksum: Checksum): (Log, Option<Record>) {
    if Find(log, key).Some? then (log, None)
    else (log + [FreshRecord(id, key, checksum)], Some(FreshRecord(id, key, checksum)))
  }

  predicate Has(log: Log, id: nat, status: Status) {
    exists r <- log :: r.id == id && r.status == status
  }

  /** UPDATE ... SET status = to WHERE id = $1 AND status = from. */
  function UpdateStatus(log: Log, id: nat, from: Status, to: Status, code: Option<string>, result: Option<nat>)
    : (updated: Log)
    ensures |updated| == |log|
    ensures forall i | 0 <= i < |log| ::
              updated[i] == if log[i].id == id && log[i].status == from
                            then log[i].(status := to, errorCode := code, result := result)
                            else log[i]
  {
    seq(|log|, i requires 0 <= i < |log| =>
      if log[i].id == id && log[i].status == from
      then log[i].(status := to, errorCode := code, result := result)
      else log[i])
  }

  function RestartFailed(log: Log, id: nat): Log {
    UpdateStatus(log, id, Failed, Running, None, None)
  }

  function MarkSucceeded(log: Log, id: nat, result: nat): Log {
    UpdateStatus(log, id, Running, Succeeded, None, Some(result))
  }

  function MarkFailed(log: Log, id: nat, code: string): Log {
    UpdateStatus(log, id, Running, Failed, Some(code), None)
  }

  // ---------- begin, without interference ----------

  /**
   `begin` as the executor runs it: under the advisory lock no other caller writes between
   its queries, so the retry of a failed row is claimed at the first attempt.
  */
  function Begin(log: Log, id: nat, key: string, checksum: Checksum): (Log, BeginOutcome) {
    if !ValidKey(key) then (log, Rejected(InvalidKey))
    else
      var (inserted, row) := InsertRow(log, id, key, checksum);
      if row.Some? then (inserted, Accepted(row.value, false))
      else
        var existing := Find(log, key).value;
        if existing.checksum != checksum then (log, Rejected(KeyReused))
        else
          match existing.status
          case Succeeded => (log, Replay(existing))
          case Running => (log, InProgress(existing))
          case Failed =>
            (RestartFailed(log, existing.id), Accepted(existing.(status := Running, errorCode := None, result := None), true))
  }
}
