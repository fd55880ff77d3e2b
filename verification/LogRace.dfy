/**
 The operation log shared by any number of callers whose queries interleave.  Each query is
 one atomic statement; a caller that holds an accepted claim may finish it or walk away.
*/
module LogRace {
  import opened Common
  import opened Ddl
  import opened Commands
  import opened OperationLog

  type CallerId = nat

  const MAX_ATTEMPTS := 4

  /** Branches the source reports as malformed history. */
  datatype Malformed = NoRecordVisible | Disappeared | NotRunning

  datatype Answer = Replays(record: Record) | InProgressBy(record: Record) | Reused | RetryConflict | Done | Fault(fault: Malformed)

  /** Where a caller is between two queries. */
  datatype Caller =
    | Resting
    | Looking(key: string, checksum: Checksum)          // INSERT conflicted; SELECT by key next
    | Restarting(key: string, id: nat, attempt: nat)    // UPDATE ... WHERE status = 'failed' next
    | Rereading(key: string, id: nat, attempt: nat)     // lost the restart; SELECT by key next
    | Holding(key: string, id: nat)                     // accepted claim, not finished
    | Answered(answer: Answer)

  datatype State = State(log: Log, nextId: nat, callers: map<CallerId, Caller>)

  datatype Query =
    | BeginInsert(caller: CallerId, key: string, checksum: Checksum)
    | Look(caller: CallerId)
    | Restart(caller: CallerId)
    | Reread(caller: CallerId)
    | Succeed(caller: CallerId, result: nat)
    | Fail(caller: CallerId, code: string)
    | WalkAway(caller: CallerId)

  function CallerOf(s: State, c: CallerId): Caller {
    if c in s.callers then s.callers[c] else Resting
  }

  function Move(s: State, c: CallerId, caller: Caller): State {
    s.(callers := s.callers[c := caller])
  }

  function NextInsert(s: State, c: CallerId, key: string, checksum: Checksum): Option<State> {
    if !(CallerOf(s, c).Resting? || CallerOf(s, c).Answered?) || !ValidKey(key) then None
    else
      var (log, row) := InsertRow(s.log, s.nextId, key, checksum);
      var queried := s.(log := log, nextId := s.nextId + 1);
      Some(Move(queried, c, if row.Some? then Holding(key, row.value.id) else Looking(key, checksum)))
  }

  /** `classifyExisting` up to its retry loop. */
  function NextLook(s: State, c: CallerId): Option<State> {
    var caller := CallerOf(s, c);
    if !caller.Looking? then None
    else
      var found := Find(s.log, caller.key);
      Some(Move(s, c,
        if found.None? then Answered(Fault(NoRecordVisible))
        else if found.value.checksum != caller.checksum then Answered(Reused)
        else match found.value.status
             case Succeeded => Answered(Replays(found.value))
             case Running => Answered(InProgressBy(found.value))
             case Failed => Restarting(caller.key, found.value.id, 0)))
  }

  function NextRestart(s: State, c: CallerId): Option<State> {
    var caller := CallerOf(s, c);
    if !caller.Restarting? then None
    else if Has(s.log, caller.id, Failed) then
      Some(Move(s.(log := RestartFailed(s.log, caller.id)), c, Holding(caller.key, caller.id)))
    else Some(Move(s, c, Rereading(caller.key, caller.id, caller.attempt)))
  }

  function NextReread(s: State, c: CallerId): Option<State> {
    var caller := CallerOf(s, c);
    if !caller.Rereading? then None
    else
      var found := Find(s.log, caller.key);
      Some(Move(s, c,
        if found.None? then Answered(Fault(Disappeared))
        else match found.value.status
             case Succeeded => Answered(Replays(found.value))
             case Running => Answered(InProgressBy(found.value))
             case Failed =>
               if caller.attempt + 1 < MAX_ATTEMPTS then Restarting(caller.key, caller.id, caller.attempt + 1)
               else Answered(RetryConflict)))
  }

  function NextFinish(s: State, c: CallerId, finished: Log): Option<State> {
    var caller := CallerOf(s, c);
    if !caller.Holding? then None
    else if Has(s.log, caller.id, Running) then Some(Move(s.(log := finished), c, Answered(Done)))
    else Some(Move(s, c, Answered(Fault(NotRunning))))
  }

  function Next(s: State, q: Query): Option<State> {
    match q
    case BeginInsert(c, key, checksum) => NextInsert(s, c, key, checksum)
    case Look(c) => NextLook(s, c)
    case Restart(c) => NextRestart(s, c)
    case Reread(c) => NextReread(s, c)
    case Succeed(c, result) =>
      if CallerOf(s, c).Holding? then NextFinish(s, c, MarkSucceeded(s.log, CallerOf(s, c).id, result)) else None
    case Fail(c, code) =>
      if CallerOf(s, c).Holding? then NextFinish(s, c, MarkFailed(s.log, CallerOf(s, c).id, code)) else None
    case WalkAway(c) => if CallerOf(s, c).Resting? then None else Some(Move(s, c, Resting))
  }

  function Run(s: State, queries: seq<Query>): Option<State>
    decreases |queries|
  {
    if queries == [] then Some(s)
    else
      var next := Next(s, queries[0]);
      if next.None? then None else Run(next.value, queries[1..])
  }

  const EMPTY := State([], 1, map[])

  // ---------- invariant ----------

  ghost predicate Rows(log: Log, nextId: nat) {
    && (forall i | 0 <= i < |log| :: log[i].id < nextId)
    && (forall i, j | 0 <= i < j < |log| :: log[i].id < log[j].id && log[i].key != log[j].key)
  }

  ghost predicate HasRow(log: Log, key: string, id: nat) {
    exists i | 0 <= i < |log| :: log[i].key == key && log[i].id == id
  }

  ghost predicate Claims(log: Log, key: string, id: nat) {
    exists i | 0 <= i < |log| :: log[i].key == key && log[i].id == id && log[i].status == Running
  }

  ghost predicate CallerInv(s: State, caller: Caller) {
    match caller
    case Looking(key, _) => exists i | 0 <= i < |s.log| :: s.log[i].key == key
    case Restarting(key, id, attempt) => HasRow(s.log, key, id) && attempt < MAX_ATTEMPTS
    case Rereading(key, id, attempt) => HasRow(s.log, key, id) && attempt < MAX_ATTEMPTS
    case Holding(key, id) => Claims(s.log, key, id)
    case Answered(answer) => !answer.Fault?
    case Resting => true
  }

  ghost predicate Inv(s: State) {
    && Rows(s.log, s.nextId)
    && (forall c: CallerId :: CallerInv(s, CallerOf(s, c)))
    && (forall c: CallerId, d: CallerId | CallerOf(s, c).Holding? && CallerOf(s, d).Holding?
          && CallerOf(s, c).id == CallerOf(s, d).id :: c == d)
  }

  /** Rows only grow at the end; key, command, checksum and id of a row never change; a success is final. */
  ghost predicate History(log: Log, log': Log) {
    && |log| <= |log'|
    && forall i | 0 <= i < |log| ::
         && log'[i].id == log[i].id && log'[i].key == log[i].key
         && log'[i].command == log[i].command && log'[i].checksum == log[i].checksum
         && (log[i].status == Succeeded ==> log'[i] == log[i])
  }

  lemma StepHistory(s: State, q: Query, s': State)
    requires Next(s, q) == Some(s')
    ensures History(s.log, s'.log)
    ensures forall c: CallerId | c != q.caller :: CallerOf(s', c) == CallerOf(s, c)
  {
  }

  lemma StepRows(s: State, q: Query, s': State)
    requires Inv(s) && Next(s, q) == Some(s')
    ensures Rows(s'.log, s'.nextId)
  {
    StepHistory(s, q, s');
    if q.BeginInsert? {
      assert forall i | 0 <= i < |s.log| :: s'.log[i] == s.log[i];
      assert forall i | 0 <= i < |s.log| :: s.log[i] in s.log;
    }
  }

  /** A row a caller knows of stays there. */
  lemma RowStays(log: Log, log': Log, key: string, id: nat)
    requires History(log, log') && HasRow(log, key, id)
    ensures HasRow(log', key, id)
  {
    var i :| 0 <= i < |log| && log[i].key == key && log[i].id == id;
    assert log'[i].key == key && log'[i].id == id;
  }

  lemma UniqueRow(log: Log, nextId: nat, key: string, id: nat)
    requires Rows(log, nextId) && HasRow(log, key, id)
    ensures Find(log, key).Some? && Find(log, key).value.id == id
  {
    var i :| 0 <= i < |log| && log[i].key == key && log[i].id == id;
    assert log[i] in log;
    var found := Find(log, key).value;
    var j :| 0 <= j < |log| && log[j] == found;
    assert i == j;
  }

  lemma OthersKept(s: State, q: Query, s': State, c: CallerId)
    requires Inv(s) && Next(s, q) == Some(s')
    requires c != q.caller
    ensures CallerInv(s', CallerOf(s', c))
  {
    StepHistory(s, q, s');
    var caller := CallerOf(s, c);
    assert CallerInv(s, caller) && CallerInv(s, CallerOf(s, q.caller));
    match caller
    case Looking(key, _) =>
      var i :| 0 <= i < |s.log| && s.log[i].key == key;
      assert s'.log[i].key == key;
    case Restarting(key, id, _) => RowStays(s.log, s'.log, key, id);
    case Rereading(key, id, _) => RowStays(s.log, s'.log, key, id);
    case Holding(key, id) => ClaimStays(s, q, s', c);
    case _ =>
  }

  /** Only the holder of a claim can end it. */
  lemma ClaimStays(s: State, q: Query, s': State, c: CallerId)
    requires Inv(s) && Next(s, q) == Some(s')
    requires c != q.caller && CallerOf(s, c).Holding?
    ensures Claims(s'.log, CallerOf(s, c).key, CallerOf(s, c).id)
  {
    StepHistory(s, q, s');
    var caller := CallerOf(s, c);
    assert CallerInv(s, caller);
    var i :| 0 <= i < |s.log| && s.log[i].key == caller.key && s.log[i].id == caller.id && s.log[i].status == Running;
    assert s'.log[i].status == Running by {
      if q.Succeed? || q.Fail? {
        assert CallerOf(s, q.caller).id != caller.id;
      }
    }
  }

  lemma LookKept(s: State, c: CallerId, s': State)
    requires Inv(s) && NextLook(s, c) == Some(s')
    ensures CallerInv(s', CallerOf(s', c))
  {
    var caller := CallerOf(s, c);
    assert CallerInv(s, caller);
    var i :| 0 <= i < |s.log| && s.log[i].key == caller.key;
    assert s.log[i] in s.log;
    var found := Find(s.log, caller.key).value;
    var j :| 0 <= j < |s.log| && s.log[j] == found;
  }

  lemma RestartKept(s: State, c: CallerId, s': State)
    requires Inv(s) && NextRestart(s, c) == Some(s')
    ensures CallerInv(s', CallerOf(s', c))
  {
    var caller := CallerOf(s, c);
    assert CallerInv(s, caller);
    var i :| 0 <= i < |s.log| && s.log[i].key == caller.key && s.log[i].id == caller.id;
    if Has(s.log, caller.id, Failed) {
      var r :| r in s.log && r.id == caller.id && r.status == Failed;
      var j :| 0 <= j < |s.log| && s.log[j] == r;
      assert i == j;
      assert s'.log[i].status == Running && s'.log[i].key == caller.key && s'.log[i].id == caller.id;
    }
  }

  lemma RereadKept(s: State, c: CallerId, s': State)
    requires Inv(s) && NextReread(s, c) == Some(s')
    ensures CallerInv(s', CallerOf(s', c))
  {
    var caller := CallerOf(s, c);
    assert CallerInv(s, caller);
    UniqueRow(s.log, s.nextId, caller.key, caller.id);
  }

  lemma InsertKept(s: State, c: CallerId, key: string, checksum: Checksum, s': State)
    requires Inv(s) && NextInsert(s, c, key, checksum) == Some(s')
    ensures CallerInv(s', CallerOf(s', c))
  {
    if Find(s.log, key).Some? {
      var j :| 0 <= j < |s.log| && s.log[j] == Find(s.log, key).value;
    } else {
      assert s'.log[|s.log|] == FreshRecord(s.nextId, key, checksum);
    }
  }

  lemma FinishKept(s: State, c: CallerId, finished: Log, s': State)
    requires Inv(s) && NextFinish(s, c, finished) == Some(s')
    ensures CallerOf(s', c) == Answered(Done)
  {
    var caller := CallerOf(s, c);
    assert CallerInv(s, caller);
    var i :| 0 <= i < |s.log| && s.log[i].key == caller.key && s.log[i].id == caller.id && s.log[i].status == Running;
    assert s.log[i] in s.log;
  }

  lemma ActorKept(s: State, q: Query, s': State)
    requires Inv(s) && Next(s, q) == Some(s')
    ensures CallerInv(s', CallerOf(s', q.caller))
  {
    match q
    case BeginInsert(c, key, checksum) => InsertKept(s, c, key, checksum, s');
    case Look(c) => LookKept(s, c, s');
    case Restart(c) => RestartKept(s, c, s');
    case Reread(c) => RereadKept(s, c, s');
    case Succeed(c, result) => FinishKept(s, c, MarkSucceeded(s.log, CallerOf(s, c).id, result), s');
    case Fail(c, code) => FinishKept(s, c, MarkFailed(s.log, CallerOf(s, c).id, code), s');
    case WalkAway(c) =>
  }

  lemma RestartIsExclusive(s: State, c: CallerId, s': State, d: CallerId)
    requires Inv(s) && NextRestart(s, c) == Some(s') && d != c
    requires CallerOf(s', c).Holding? && CallerOf(s, d).Holding?
    ensures CallerOf(s', c).id != CallerOf(s, d).id
  {
    assert CallerInv(s, CallerOf(s, d));
    var id := CallerOf(s, d).id;
    var i :| 0 <= i < |s.log| && s.log[i].id == id && s.log[i].status == Running;
    var r :| r in s.log && r.id == CallerOf(s, c).id && r.status == Failed;
    var j :| 0 <= j < |s.log| && s.log[j] == r;
    assert i != j;
  }

  lemma InsertIsExclusive(s: State, c: CallerId, key: string, checksum: Checksum, s': State, d: CallerId)
    requires Inv(s) && NextInsert(s, c, key, checksum) == Some(s') && d != c
    requires CallerOf(s', c).Holding? && CallerOf(s, d).Holding?
    ensures CallerOf(s', c).id != CallerOf(s, d).id
  {
    assert CallerInv(s, CallerOf(s, d));
  }

  /** A fresh or restarted row is not in anybody else's hands. */
  lemma ClaimIsExclusive(s: State, q: Query, s': State, d: CallerId)
    requires Inv(s) && Next(s, q) == Some(s')
    requires d != q.caller
    requires CallerOf(s', q.caller).Holding? && CallerOf(s', d).Holding?
    ensures CallerOf(s', q.caller).id != CallerOf(s', d).id
  {
    StepHistory(s, q, s');
    match q
    case Restart(c) => RestartIsExclusive(s, c, s', d);
    case BeginInsert(c, key, checksum) => InsertIsExclusive(s, c, key, checksum, s', d);
    case _ =>
  }

  lemma StepKeepsInv(s: State, q: Query, s': State)
    requires Inv(s) && Next(s, q) == Some(s')
    ensures Inv(s') && History(s.log, s'.log)
  {
    StepHistory(s, q, s');
    StepRows(s, q, s');
    forall c: CallerId ensures CallerInv(s', CallerOf(s', c)) {
      if c == q.caller { ActorKept(s, q, s'); } else { OthersKept(s, q, s', c); }
    }
    forall c: CallerId, d: CallerId | CallerOf(s', c).Holding? && CallerOf(s', d).Holding?
        && CallerOf(s', c).id == CallerOf(s', d).id
      ensures c == d
    {
      if c == q.caller && d != q.caller { ClaimIsExclusive(s, q, s', d); }
      if d == q.caller && c != q.caller { ClaimIsExclusive(s, q, s', c); }
    }
  }

  lemma {:induction false} RunKeepsInv(s: State, queries: seq<Query>, s': State)
    requires Inv(s) && Run(s, queries) == Some(s')
    ensures Inv(s') && History(s.log, s'.log)
    decreases |queries|
  {
    if queries != [] {
      var next := Next(s, queries[0]).value;
      StepKeepsInv(s, queries[0], next);
      RunKeepsInv(next, queries[1..], s');
    }
  }

  /**
   Over every interleaving of begin, succeed and fail: no caller ever reaches a branch the
   source reports as malformed history, and one key has at most one unfinished accepted claim.
  */
  lemma ClaimsAreExclusive(queries: seq<Query>, s: State, c: CallerId, d: CallerId)
    requires Run(EMPTY, queries) == Some(s)
    ensures CallerOf(s, c).Answered? ==> !CallerOf(s, c).answer.Fault?
    ensures CallerOf(s, c).Holding? && CallerOf(s, d).Holding? && CallerOf(s, c).key == CallerOf(s, d).key ==> c == d
  {
    RunKeepsInv(EMPTY, queries, s);
    assert CallerInv(s, CallerOf(s, c)) && CallerInv(s, CallerOf(s, d));
    if CallerOf(s, c).Holding? && CallerOf(s, d).Holding? && CallerOf(s, c).key == CallerOf(s, d).key {
      var key := CallerOf(s, c).key;
      var i :| 0 <= i < |s.log| && s.log[i].key == key && s.log[i].id == CallerOf(s, c).id;
      var j :| 0 <= j < |s.log| && s.log[j].key == key && s.log[j].id == CallerOf(s, d).id;
      assert i == j;
    }
  }

  /** From any reachable state on: rows stay, their command and checksum never change, a success is final. */
  lemma HistoryIsImmutable(before: seq<Query>, s: State, after: seq<Query>, s': State)
    requires Run(EMPTY, before) == Some(s) && Run(s, after) == Some(s')
    ensures History(s.log, s'.log)
  {
    RunKeepsInv(EMPTY, before, s);
    RunKeepsInv(s, after, s');
  }

  // ---------- the retry loop stops ----------

  /** How many more queries of its own a `begin` can issue. */
  function Remaining(caller: Caller): int {
    match caller
    case Looking(_, _) => 2 * MAX_ATTEMPTS + 1
    case Restarting(_, _, attempt) => 2 * (MAX_ATTEMPTS - attempt)
    case Rereading(_, _, attempt) => 2 * (MAX_ATTEMPTS - attempt) - 1
    case _ => 0
  }

  lemma BeginTerminates(s: State, q: Query, s': State)
    requires Inv(s) && Next(s, q) == Some(s')
    requires q.Look? || q.Restart? || q.Reread?
    ensures 0 <= Remaining(CallerOf(s', q.caller)) < Remaining(CallerOf(s, q.caller))
    ensures Remaining(CallerOf(s', q.caller)) == 0 <==>
              CallerOf(s', q.caller).Holding? || CallerOf(s', q.caller).Answered?
  {
    assert CallerInv(s, CallerOf(s, q.caller));
  }

  // ---------- the answers are true ----------

  ghost predicate IsRow(log: Log, key: string, r: Record) {
    r in log && r.key == key && forall q <- log :: q.key == key ==> q == r
  }

  /** A lookup by key answers by the one row of that key: its checksum first, then its status. */
  lemma LookAnswers(s: State, c: CallerId, s': State, r: Record)
    requires Inv(s) && Next(s, Look(c)) == Some(s') && IsRow(s.log, CallerOf(s, c).key, r)
    ensures s'.log == s.log
    ensures CallerOf(s', c) ==
      if r.checksum != CallerOf(s, c).checksum then Answered(Reused)
      else match r.status
           case Succeeded => Answered(Replays(r))
           case Running => Answered(InProgressBy(r))
           case Failed => Restarting(r.key, r.id, 0)
  {
  }

  /** A restart is won exactly while the row is a failure, and the winner's row is running again. */
  lemma RestartAnswers(s: State, c: CallerId, s': State, i: nat)
    requires Inv(s) && Next(s, Restart(c)) == Some(s') && i < |s.log| && s.log[i].id == CallerOf(s, c).id
    ensures CallerOf(s', c).Holding? <==> s.log[i].status == Failed
    ensures s.log[i].status == Failed ==>
              s'.log == s.log[i := s.log[i].(status := Running, errorCode := None, result := None)]
    ensures s.log[i].status != Failed ==> s'.log == s.log
  {
    assert s.log[i] in s.log;
    assert forall r <- s.log :: r.id == s.log[i].id ==> r == s.log[i];
  }

  /** A claim on a new key is one new row at the end; on a used key nothing is written. */
  lemma InsertAnswers(s: State, c: CallerId, key: string, checksum: Checksum, s': State)
    requires Inv(s) && Next(s, BeginInsert(c, key, checksum)) == Some(s')
    ensures CallerOf(s', c).Holding? <==> forall r <- s.log :: r.key != key
    ensures CallerOf(s', c).Holding? ==>
              s'.log == s.log + [Record(s.nextId, key, checksum.command, checksum, Running, None, None)]
    ensures !CallerOf(s', c).Holding? ==> s'.log == s.log && CallerOf(s', c) == Looking(key, checksum)
  {
  }

  /** The holder of a claim ends it as it says, and changes no other row. */
  lemma FinishAnswers(s: State, q: Query, s': State, i: nat)
    requires Inv(s) && (q.Succeed? || q.Fail?) && Next(s, q) == Some(s')
    requires i < |s.log| && s.log[i].id == CallerOf(s, q.caller).id
    ensures s.log[i].status == Running && CallerOf(s', q.caller) == Answered(Done)
    ensures s'.log == s.log[i := if q.Succeed? then s.log[i].(status := Succeeded, errorCode := None, result := Some(q.result))
                                 else s.log[i].(status := Failed, errorCode := Some(q.code), result := None)]
  {
    assert CallerInv(s, CallerOf(s, q.caller));
    assert s.log[i] in s.log;
    assert forall j | 0 <= j < |s.log| && s.log[j].id == s.log[i].id :: j == i;
    if q.Succeed? {
      FinishKept(s, q.caller, MarkSucceeded(s.log, s.log[i].id, q.result), s');
    } else {
      FinishKept(s, q.caller, MarkFailed(s.log, s.log[i].id, q.code), s');
    }
  }

  /** A caller that lost the restart answers by what the row has become, and gives up at the fourth loss. */
  lemma RereadAnswers(s: State, c: CallerId, s': State, r: Record)
    requires Inv(s) && Next(s, Reread(c)) == Some(s') && IsRow(s.log, CallerOf(s, c).key, r)
    ensures s'.log == s.log
    ensures CallerOf(s', c) ==
      match r.status
      case Succeeded => Answered(Replays(r))
      case Running => Answered(InProgressBy(r))
      case Failed =>
        if CallerOf(s, c).attempt < 3 then Restarting(CallerOf(s, c).key, CallerOf(s, c).id, CallerOf(s, c).attempt + 1)
        else Answered(RetryConflict)
  {
  }
}
