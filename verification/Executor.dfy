/**
 The transactional executor as a protocol between any number of clients and one database.

 A client resolves and compiles its command outside any lock.  Its transaction then takes
 the advisory lock, claims the idempotency row, runs the statements on a private copy and
 publishes the copy at COMMIT.  A client can be cut off at any point, and a COMMIT can take
 effect although its answer is lost.
*/
module Executor {
  import opened Common
  import opened Ddl
  import opened Commands
  import opened OperationLog
  import opened Services

  type ClientId = nat

  datatype Outcome =
    | Executed(record: Record)
    | Replayed(record: Record)
    | DryRunDone
    | Refused(error: ServiceError)
    | NotCompiled
    | Conflicted
    | Broken // a statement failed, the connection died, or the answer was lost

  /** The submission a client holds between compilation and the end of its transaction. */
  datatype Job = Job(key: string, command: Command, plan: seq<Stmt>, dryRun: bool)

  datatype Client =
    | Idle
    | Compiled(job: Job)
    | InTransaction(job: Job, work: Db, history: Log, claim: Option<nat>, pc: nat, recorded: bool)
    | Finished(outcome: Outcome)

  datatype System = System(db: Db, log: Log, nextId: nat, lock: Option<ClientId>, clients: map<ClientId, Client>)

  datatype Action =
    | Submit(client: ClientId, key: string, input: Input, dryRun: bool, live: Live)
    | Lock(client: ClientId)
    | Claim(client: ClientId)
    | RunStatement(client: ClientId)
    | RecordSuccess(client: ClientId)
    | Commit(client: ClientId, answered: bool)
    | EndDryRun(client: ClientId)
    | Cut(client: ClientId)

  function ClientOf(s: System, c: ClientId): Client {
    if c in s.clients then s.clients[c] else Idle
  }

  function SetClient(s: System, c: ClientId, client: Client): System {
    s.(clients := s.clients[c := client])
  }

  /** ROLLBACK or COMMIT: the advisory lock goes with the transaction. */
  function Release(s: System, c: ClientId, outcome: Outcome): System {
    SetClient(s, c, Finished(outcome)).(lock := None)
  }

  function NextSubmit(cfg: Config, s: System, a: Action): Option<System>
    requires a.Submit?
  {
    if ClientOf(s, a.client).Compiled? || ClientOf(s, a.client).InTransaction? then None
    else
      var resolved := Resolve(a.input, Find(s.log, a.key), a.dryRun, a.live);
      if resolved.Err? then Some(SetClient(s, a.client, Finished(Refused(resolved.error))))
      else
        var plan := Compile(cfg, resolved.value);
        if plan.None? then Some(SetClient(s, a.client, Finished(NotCompiled)))
        else Some(SetClient(s, a.client, Compiled(Job(a.key, resolved.value, plan.value, a.dryRun))))
  }

  function NextLock(s: System, c: ClientId): Option<System> {
    var client := ClientOf(s, c);
    if !client.Compiled? || s.lock.Some? then None
    else Some(SetClient(s, c, InTransaction(client.job, s.db, s.log, None, 0, false)).(lock := Some(c)))
  }

  /** A refused INSERT still consumes the value its sequence handed out. */
  function NextClaim(s: System, c: ClientId): Option<System> {
    var client := ClientOf(s, c);
    if !client.InTransaction? || client.job.dryRun || client.claim.Some? then None
    else
      var checksum := Checksum(client.job.command, client.job.plan);
      var (history, outcome) := Begin(client.history, s.nextId, client.job.key, checksum);
      var counted := s.(nextId := s.nextId + 1);
      match outcome
      case Accepted(record, _) =>
        Some(SetClient(counted, c, client.(history := history, claim := Some(record.id))))
      case Replay(record) => Some(Release(counted, c, Replayed(record)))
      case InProgress(_) => Some(Release(counted, c, Conflicted))
      case Rejected(_) => Some(Release(counted, c, Conflicted))
  }

  function NextStatement(s: System, c: ClientId): Option<System> {
    var client := ClientOf(s, c);
    if !client.InTransaction? || client.pc >= |client.job.plan| || (!client.job.dryRun && client.claim.None?) then None
    else
      var result := Apply(client.job.plan[client.pc], client.work);
      if result.None? then Some(Release(s, c, Broken))
      else Some(SetClient(s, c, client.(work := result.value, pc := client.pc + 1)))
  }

  function NextRecord(s: System, c: ClientId): Option<System> {
    var client := ClientOf(s, c);
    if !client.InTransaction? || client.pc < |client.job.plan| || client.claim.None? || client.recorded then None
    else
      var history := MarkSucceeded(client.history, client.claim.value, |client.job.plan|);
      Some(SetClient(s, c, client.(history := history, recorded := true)))
  }

  function NextCommit(s: System, c: ClientId, answered: bool): Option<System> {
    var client := ClientOf(s, c);
    if !client.InTransaction? || !client.recorded then None
    else
      var published := s.(db := client.work, log := client.history);
      var record := Find(client.history, client.job.key);
      Some(Release(published, c, if answered && record.Some? then Executed(record.value) else Broken))
  }

  function NextEndDryRun(s: System, c: ClientId): Option<System> {
    var client := ClientOf(s, c);
    if !client.InTransaction? || !client.job.dryRun || client.pc < |client.job.plan| then None
    else Some(Release(s, c, DryRunDone))
  }

  function NextCut(s: System, c: ClientId): Option<System> {
    var client := ClientOf(s, c);
    if client.Compiled? then Some(SetClient(s, c, Finished(Broken)))
    else if client.InTransaction? then Some(Release(s, c, Broken))
    else None
  }

  /** The state after one action, or `None` when the action is not possible. */
  function Next(cfg: Config, s: System, a: Action): Option<System> {
    match a
    case Submit(_, _, _, _, _) => NextSubmit(cfg, s, a)
    case Lock(c) => NextLock(s, c)
    case Claim(c) => NextClaim(s, c)
    case RunStatement(c) => NextStatement(s, c)
    case RecordSuccess(c) => NextRecord(s, c)
    case Commit(c, answered) => NextCommit(s, c, answered)
    case EndDryRun(c) => NextEndDryRun(s, c)
    case Cut(c) => NextCut(s, c)
  }

  /** The state after a whole interleaving, or `None` when some action is not possible. */
  function Run(cfg: Config, s: System, actions: seq<Action>): Option<System>
    decreases |actions|
  {
    if actions == [] then Some(s)
    else
      var next := Next(cfg, s, actions[0]);
      if next.None? then None else Run(cfg, next.value, actions[1..])
  }

  function Start(db: Db): System {
    System(db, [], 1, None, map[])
  }

  // ---------- the redo log ----------

  /** Apply, once each and in row order, the plans recompiled from the recorded commands. */
  function Redo(cfg: Config, db: Db, log: Log): Option<Db> {
    if log == [] then Some(db)
    else
      var last := |log| - 1;
      var before := Redo(cfg, db, log[..last]);
      var plan := Compile(cfg, log[last].command);
      if before.None? || plan.None? then None else ApplyAll(plan.value, before.value)
  }

  /** Every row is a success with a fresh key, a larger id, and the checksum of its own recompilation. */
  ghost predicate History(cfg: Config, log: Log, nextId: nat) {
    && (forall i | 0 <= i < |log| :: log[i].status == Succeeded && log[i].id < nextId && ValidKey(log[i].key))
    && (forall i | 0 <= i < |log| :: Compile(cfg, log[i].command).Some?
         && log[i].checksum == Checksum(log[i].command, Compile(cfg, log[i].command).value))
    && (forall i, j | 0 <= i < j < |log| :: log[i].id < log[j].id && log[i].key != log[j].key)
  }

  ghost predicate JobInv(cfg: Config, job: Job) {
    Compile(cfg, job.command) == Some(job.plan)
  }

  function Claimed(job: Job, id: nat, recorded: bool): Record {
    var row := FreshRecord(id, job.key, Checksum(job.command, job.plan));
    if recorded then row.(status := Succeeded, result := Some(|job.plan|)) else row
  }

  /** The private copy is the published state plus this transaction's own statements and row. */
  ghost predicate TransactionInv(s: System, t: Client)
    requires t.InTransaction?
  {
    && t.pc <= |t.job.plan|
    && ApplyAll(t.job.plan[..t.pc], s.db) == Some(t.work)
    && (t.claim.None? ==> t.history == s.log && !t.recorded)
    && (t.claim.Some? ==>
          && !t.job.dryRun
          && ValidKey(t.job.key)
          && Find(s.log, t.job.key).None?
          && t.claim.value < s.nextId
          && (forall r <- s.log :: r.id < t.claim.value)
          && t.history == s.log + [Claimed(t.job, t.claim.value, t.recorded)])
    && (t.recorded ==> t.pc == |t.job.plan|)
  }

  ghost predicate ClientInv(cfg: Config, s: System, c: ClientId) {
    var client := ClientOf(s, c);
    && (client.Compiled? ==> JobInv(cfg, client.job))
    && (client.InTransaction? ==> s.lock == Some(c) && JobInv(cfg, client.job) && TransactionInv(s, client))
  }

  ghost predicate Inv(cfg: Config, init: Db, s: System) {
    && History(cfg, s.log, s.nextId)
    && Redo(cfg, init, s.log) == Some(s.db)
    && (s.lock.Some? ==> ClientOf(s, s.lock.value).InTransaction?)
    && (forall c: ClientId :: ClientInv(cfg, s, c))
  }

  /** What a committed change of the database is: one compiled plan applied to it. */
  ghost predicate PlanStep(cfg: Config, db: Db, db': Db) {
    exists command: Command :: Compile(cfg, command).Some? && ApplyAll(Compile(cfg, command).value, db) == Some(db')
  }

  /** Only the acting client changes, and only a COMMIT changes what is published. */
  lemma OneClient(cfg: Config, s: System, a: Action, s': System)
    requires Next(cfg, s, a) == Some(s')
    ensures forall c: ClientId | c != a.client :: ClientOf(s', c) == ClientOf(s, c)
    ensures !a.Commit? ==> s'.db == s.db && s'.log == s.log
    ensures s.nextId <= s'.nextId
  {
  }

  /** The lock is held by at most one client, so only the holder can change lock or database. */
  lemma OthersKept(cfg: Config, init: Db, s: System, a: Action, s': System, c: ClientId)
    requires Inv(cfg, init, s)
    requires Next(cfg, s, a) == Some(s')
    requires c != a.client
    ensures ClientInv(cfg, s', c)
  {
    OneClient(cfg, s, a, s');
    assert ClientInv(cfg, s, c) && ClientInv(cfg, s, a.client);
  }

  lemma ClaimKept(cfg: Config, init: Db, s: System, c: ClientId, s': System)
    requires Inv(cfg, init, s)
    requires NextClaim(s, c) == Some(s')
    ensures ClientInv(cfg, s', c)
  {
    assert ClientInv(cfg, s, c);
    var t := ClientOf(s, c);
    var found := Find(s.log, t.job.key);
    if found.Some? {
      assert found.value in s.log && found.value.status == Succeeded;
    }
  }

  lemma PrefixExtends(plan: seq<Stmt>, pc: nat, db: Db, work: Db)
    requires pc < |plan| && ApplyAll(plan[..pc], db) == Some(work)
    ensures ApplyAll(plan[..pc + 1], db) == Apply(plan[pc], work)
  {
    assert plan[..pc + 1] == plan[..pc] + [plan[pc]];
    ApplyAllAppend(plan[..pc], plan[pc], db);
  }

  lemma StatementKept(cfg: Config, init: Db, s: System, c: ClientId, s': System)
    requires Inv(cfg, init, s)
    requires NextStatement(s, c) == Some(s')
    ensures ClientInv(cfg, s', c)
  {
    assert ClientInv(cfg, s, c);
    var t := ClientOf(s, c);
    PrefixExtends(t.job.plan, t.pc, s.db, t.work);
  }

  lemma RecordKept(cfg: Config, init: Db, s: System, c: ClientId, s': System)
    requires Inv(cfg, init, s)
    requires NextRecord(s, c) == Some(s')
    ensures ClientInv(cfg, s', c)
  {
    assert ClientInv(cfg, s, c);
    var t := ClientOf(s, c);
    assert ClientOf(s', c).history == s.log + [Claimed(t.job, t.claim.value, true)];
  }

  lemma RedoAppend(cfg: Config, init: Db, log: Log, row: Record, plan: seq<Stmt>)
    requires Compile(cfg, row.command) == Some(plan)
    requires Redo(cfg, init, log).Some?
    ensures Redo(cfg, init, log + [row]) == ApplyAll(plan, Redo(cfg, init, log).value)
  {
    assert (log + [row])[..|log|] == log;
  }

  /** The shape of the state a COMMIT publishes. */
  lemma CommitPublishes(cfg: Config, init: Db, s: System, c: ClientId, answered: bool, s': System)
    requires Inv(cfg, init, s)
    requires NextCommit(s, c, answered) == Some(s')
    ensures ClientOf(s, c).InTransaction? && ClientOf(s, c).claim.Some?
    ensures var t := ClientOf(s, c);
      && s'.log == s.log + [Claimed(t.job, t.claim.value, true)]
      && Compile(cfg, t.job.command) == Some(t.job.plan)
      && ApplyAll(t.job.plan, s.db) == Some(s'.db)
      && ValidKey(t.job.key) && !t.job.dryRun && Find(s.log, t.job.key).None?
      && t.claim.value < s.nextId == s'.nextId
      && forall r <- s.log :: r.id < t.claim.value
  {
    assert ClientInv(cfg, s, c);
    var t := ClientOf(s, c);
    assert t.job.plan[..t.pc] == t.job.plan;
  }

  lemma HistoryAppend(cfg: Config, log: Log, nextId: nat, job: Job, id: nat)
    requires History(cfg, log, nextId) && JobInv(cfg, job)
    requires ValidKey(job.key) && Find(log, job.key).None?
    requires id < nextId && forall r <- log :: r.id < id
    ensures History(cfg, log + [Claimed(job, id, true)], nextId)
  {
  }

  lemma CommitKept(cfg: Config, init: Db, s: System, c: ClientId, answered: bool, s': System)
    requires Inv(cfg, init, s)
    requires NextCommit(s, c, answered) == Some(s')
    ensures History(cfg, s'.log, s'.nextId) && Redo(cfg, init, s'.log) == Some(s'.db)
    ensures s.log <= s'.log && PlanStep(cfg, s.db, s'.db)
  {
    CommitPublishes(cfg, init, s, c, answered, s');
    var t := ClientOf(s, c);
    HistoryAppend(cfg, s.log, s.nextId, t.job, t.claim.value);
    RedoAppend(cfg, init, s.log, Claimed(t.job, t.claim.value, true), t.job.plan);
  }

  lemma SubmitKept(cfg: Config, s: System, a: Action, s': System)
    requires a.Submit? && NextSubmit(cfg, s, a) == Some(s')
    ensures ClientInv(cfg, s', a.client)
  {
  }

  lemma ActorKept(cfg: Config, init: Db, s: System, a: Action, s': System)
    requires Inv(cfg, init, s)
    requires Next(cfg, s, a) == Some(s')
    ensures ClientInv(cfg, s', a.client)
  {
    assert ClientInv(cfg, s, a.client);
    match a
    case Claim(c) => ClaimKept(cfg, init, s, c, s');
    case RunStatement(c) => StatementKept(cfg, init, s, c, s');
    case RecordSuccess(c) => RecordKept(cfg, init, s, c, s');
    case Submit(_, _, _, _, _) => SubmitKept(cfg, s, a, s');
    case _ =>
  }

  ghost predicate LockHeld(s: System) {
    s.lock.Some? ==> ClientOf(s, s.lock.value).InTransaction?
  }

  lemma ClaimLock(s: System, c: ClientId, s': System)
    requires LockHeld(s) && NextClaim(s, c) == Some(s')
    ensures LockHeld(s')
  {
  }

  lemma StatementLock(s: System, c: ClientId, s': System)
    requires LockHeld(s) && NextStatement(s, c) == Some(s')
    ensures LockHeld(s')
  {
  }

  lemma LockKept(cfg: Config, s: System, a: Action, s': System)
    requires LockHeld(s)
    requires Next(cfg, s, a) == Some(s')
    ensures LockHeld(s')
  {
    match a
    case Claim(c) => ClaimLock(s, c, s');
    case RunStatement(c) => StatementLock(s, c, s');
    case _ =>
  }

  /** One action of any client keeps the invariant. */
  lemma StepKeepsInv(cfg: Config, init: Db, s: System, a: Action, s': System)
    requires Inv(cfg, init, s)
    requires Next(cfg, s, a) == Some(s')
    ensures Inv(cfg, init, s')
    ensures s.log <= s'.log
    ensures s'.db == s.db || PlanStep(cfg, s.db, s'.db)
  {
    OneClient(cfg, s, a, s');
    forall c: ClientId ensures ClientInv(cfg, s', c) {
      if c != a.client { OthersKept(cfg, init, s, a, s', c); } else { ActorKept(cfg, init, s, a, s'); }
    }
    LockKept(cfg, s, a, s');
    if a.Commit? {
      CommitKept(cfg, init, s, a.client, a.answered, s');
    }
  }

  lemma {:induction false} RunKeepsInv(cfg: Config, init: Db, s: System, actions: seq<Action>, s': System)
    requires Inv(cfg, init, s)
    requires Run(cfg, s, actions) == Some(s')
    ensures Inv(cfg, init, s')
    ensures s.log <= s'.log
    decreases |actions|
  {
    if actions != [] {
      var next := Next(cfg, s, actions[0]).value;
      StepKeepsInv(cfg, init, s, actions[0], next);
      RunKeepsInv(cfg, init, next, actions[1..], s');
    }
  }

  /**
   The history is a complete redo log: after every interleaving, with cut connections and
   lost answers, the published database is exactly the recorded commands recompiled and
   applied once each in id order, every durable row is a success, and no key occurs twice.
  */
  lemma HistoryIsRedoLog(cfg: Config, init: Db, actions: seq<Action>, s: System)
    requires Run(cfg, Start(init), actions) == Some(s)
    ensures Redo(cfg, init, s.log) == Some(s.db)
    ensures forall r <- s.log :: r.status == Succeeded
    ensures forall i, j | 0 <= i < j < |s.log| :: s.log[i].id < s.log[j].id && s.log[i].key != s.log[j].key
  {
    RunKeepsInv(cfg, init, Start(init), actions, s);
  }

  /** Mutual exclusion: two clients are never inside a transaction at the same time. */
  lemma OneTransaction(cfg: Config, init: Db, actions: seq<Action>, s: System, c: ClientId, d: ClientId)
    requires Run(cfg, Start(init), actions) == Some(s)
    requires ClientOf(s, c).InTransaction? && ClientOf(s, d).InTransaction?
    ensures c == d
  {
    RunKeepsInv(cfg, init, Start(init), actions, s);
    assert ClientInv(cfg, s, c) && ClientInv(cfg, s, d);
  }

  // ---------- what a client is told ----------

  /** A client told of a durable success was told the truth. */
  ghost predicate Honest(s: System, c: ClientId) {
    ClientOf(s, c).Finished? ==>
      match ClientOf(s, c).outcome
      case Executed(record) => record in s.log
      case Replayed(record) => record in s.log
      case _ => true
  }

  ghost predicate AnswersTrue(s: System) {
    forall c: ClientId :: Honest(s, c)
  }

  lemma ClaimHonest(cfg: Config, init: Db, s: System, c: ClientId, s': System)
    requires Inv(cfg, init, s) && NextClaim(s, c) == Some(s')
    ensures Honest(s', c)
  {
    assert ClientInv(cfg, s, c);
  }

  lemma CommitHonest(cfg: Config, init: Db, s: System, c: ClientId, answered: bool, s': System)
    requires Inv(cfg, init, s) && NextCommit(s, c, answered) == Some(s')
    ensures Honest(s', c) && |s'.log| == |s.log| + 1 && forall r <- s.log :: r in s'.log
  {
    CommitPublishes(cfg, init, s, c, answered, s');
  }

  lemma SubmitHonest(cfg: Config, s: System, a: Action, s': System)
    requires a.Submit? && NextSubmit(cfg, s, a) == Some(s')
    ensures Honest(s', a.client) && s'.log == s.log
  {
  }

  lemma StatementHonest(s: System, c: ClientId, s': System)
    requires NextStatement(s, c) == Some(s')
    ensures Honest(s', c)
  {
  }

  lemma ActorHonest(cfg: Config, init: Db, s: System, a: Action, s': System)
    requires Inv(cfg, init, s) && Next(cfg, s, a) == Some(s')
    ensures Honest(s', a.client)
    ensures |s'.log| == |s.log| + if a.Commit? then 1 else 0
    ensures forall r <- s.log :: r in s'.log
  {
    match a
    case Claim(c) => ClaimHonest(cfg, init, s, c, s');
    case Commit(c, answered) => CommitHonest(cfg, init, s, c, answered, s');
    case RunStatement(c) => StatementHonest(s, c, s');
    case Submit(_, _, _, _, _) => SubmitHonest(cfg, s, a, s');
    case _ =>
  }

  lemma StepKeepsAnswers(cfg: Config, init: Db, s: System, a: Action, s': System)
    requires Inv(cfg, init, s) && AnswersTrue(s)
    requires Next(cfg, s, a) == Some(s')
    ensures AnswersTrue(s')
    ensures |s'.log| == |s.log| + if a.Commit? then 1 else 0
  {
    OneClient(cfg, s, a, s');
    ActorHonest(cfg, init, s, a, s');
    forall c: ClientId ensures Honest(s', c) {
      assert Honest(s, c);
    }
  }

  function Commits(actions: seq<Action>): nat {
    if actions == [] then 0 else (if actions[0].Commit? then 1 else 0) + Commits(actions[1..])
  }

  lemma {:induction false} RunKeepsAnswers(cfg: Config, init: Db, s: System, actions: seq<Action>, s': System)
    requires Inv(cfg, init, s) && AnswersTrue(s)
    requires Run(cfg, s, actions) == Some(s')
    ensures AnswersTrue(s')
    ensures |s'.log| == |s.log| + Commits(actions)
    decreases |actions|
  {
    if actions != [] {
      var next := Next(cfg, s, actions[0]).value;
      StepKeepsInv(cfg, init, s, actions[0], next);
      StepKeepsAnswers(cfg, init, s, actions[0], next);
      RunKeepsAnswers(cfg, init, next, actions[1..], s');
    }
  }

  /**
   A row exists for every COMMIT that took effect and for nothing else, so dry runs, refused
   and broken attempts leave none; and a client told "executed" or "replayed" was told of a
   durable success.
  */
  lemma RowsAreCommits(cfg: Config, init: Db, actions: seq<Action>, s: System)
    requires Run(cfg, Start(init), actions) == Some(s)
    ensures |s.log| == Commits(actions)
    ensures AnswersTrue(s)
  {
    RunKeepsAnswers(cfg, init, Start(init), actions, s);
  }

  /** A dry run never publishes: its client cannot reach a COMMIT. */
  lemma DryRunNeverCommits(cfg: Config, init: Db, s: System, c: ClientId, answered: bool)
    requires Inv(cfg, init, s)
    requires ClientOf(s, c).InTransaction? && ClientOf(s, c).job.dryRun
    ensures NextCommit(s, c, answered).None? && NextRecord(s, c).None?
  {
    assert ClientInv(cfg, s, c);
  }
}
