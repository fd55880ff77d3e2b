/**
 The executor's own control flow: one attempt on one connection that holds the lock throughout,
 as a class whose fields are the published state, and the same attempt as a run of the protocol.
*/
module Sessions {
  import opened Common
  import opened Ddl
  import opened Commands
  import opened OperationLog
  import opened Services
  import opened Executor

  /**
   Where the database gives up for a reason of its own: at a statement, at the success update or
   the COMMIT, or after a COMMIT that took effect, on the way back with the answer.
  */
  datatype Fault = NoFault | AtStatement(index: nat) | BeforeCommit | AnswerLost

  /** What the statement loop leaves on the private copy. */
  function PlanResult(plan: seq<Stmt>, db: Db, fault: Fault): Option<Db> {
    if fault.AtStatement? && fault.index < |plan| then None else ApplyAll(plan, db)
  }

  datatype Result = Result(db: Db, log: Log, nextId: nat, outcome: Outcome)

  /** The state an attempt leaves and what its caller is told. */
  function Alone(db: Db, log: Log, nextId: nat, job: Job, fault: Fault): Result {
    var work := PlanResult(job.plan, db, fault);
    if job.dryRun then Result(db, log, nextId, if work.Some? then DryRunDone else Broken)
    else
      var (history, begun) := Begin(log, nextId, job.key, Checksum(job.command, job.plan));
      match begun
      case Replay(record) => Result(db, log, nextId + 1, Replayed(record))
      case InProgress(_) => Result(db, log, nextId + 1, Conflicted)
      case Rejected(_) => Result(db, log, nextId + 1, Conflicted)
      case Accepted(record, _) =>
        if work.None? || fault.BeforeCommit? then Result(db, log, nextId + 1, Broken)
        else
          Result(work.value, MarkSucceeded(history, record.id, |job.plan|), nextId + 1,
                 if fault.AnswerLost? then Broken
                 else Executed(record.(status := Succeeded, result := Some(|job.plan|))))
  }

  class Session {
    var db: Db
    var log: Log
    var nextId: nat

    constructor (db: Db)
      ensures this.db == db && log == [] && nextId == 1
    {
      this.db := db;
      log := [];
      nextId := 1;
    }

    /** The statement loop: private copy in, private copy out. */
    method RunPlan(plan: seq<Stmt>, fault: Fault) returns (work: Option<Db>)
      ensures work == PlanResult(plan, db, fault)
    {
      work := Some(db);
      for i := 0 to |plan|
        invariant work == ApplyAll(plan[..i], db) && work.Some?
        invariant fault.AtStatement? ==> i <= fault.index
      {
        if fault == AtStatement(i) {
          return None;
        }
        PrefixExtends(plan, i, db, work.value);
        var next := Apply(plan[i], work.value);
        if next.None? {
          PrefixRefuses(plan, i + 1, db);
          return None;
        }
        work := next;
      }
      assert plan[..|plan|] == plan;
    }

    method Execute(job: Job, fault: Fault) returns (outcome: Outcome)
      modifies this
      ensures Result(db, log, nextId, outcome) == Alone(old(db), old(log), old(nextId), job, fault)
    {
      if job.dryRun {
        var tried := RunPlan(job.plan, fault);
        return if tried.Some? then DryRunDone else Broken;
      }
      var (history, begun) := Begin(log, nextId, job.key, Checksum(job.command, job.plan));
      nextId := nextId + 1;
      match begun {
        case Replay(record) => return Replayed(record);
        case InProgress(_) => return Conflicted;
        case Rejected(_) => return Conflicted;
        case Accepted(record, _) =>
          var work := RunPlan(job.plan, fault);
          if work.None? || fault.BeforeCommit? {
            return Broken;
          }
          db := work.value;
          log := MarkSucceeded(history, record.id, |job.plan|);
          if fault.AnswerLost? {
            return Broken;
          }
          return Executed(record.(status := Succeeded, result := Some(|job.plan|)));
      }
    }
  }

  // ---------- what an attempt comes to ----------

  /**
   Outside a lost answer, an attempt changes the state exactly when it reports an execution; what
   it then did is the whole plan and one success under its key.
  */
  lemma AloneIsHonest(db: Db, log: Log, nextId: nat, job: Job, fault: Fault)
    ensures var end := Alone(db, log, nextId, job, fault);
            && (end.outcome.Executed? ==>
                  && ApplyAll(job.plan, db) == Some(end.db) && !job.dryRun
                  && end.outcome.record in end.log && end.outcome.record.key == job.key
                  && end.outcome.record.status == Succeeded)
            && (!end.outcome.Executed? && !fault.AnswerLost? ==> end.db == db && end.log == log)
            && (end.outcome.Replayed? ==>
                  && end.outcome.record in log && end.outcome.record.status == Succeeded
                  && end.outcome.record.checksum == Checksum(job.command, job.plan))
            && (job.dryRun ==> end.db == db && end.log == log && end.nextId == nextId)
  {
    var checksum := Checksum(job.command, job.plan);
    if Begin(log, nextId, job.key, checksum).1.Accepted? {
      AcceptedIsRecorded(log, nextId, job.key, checksum, |job.plan|);
    }
  }

  /** Rows have unique keys, and ids below the next one. */
  ghost predicate Orderly(log: Log, nextId: nat) {
    && (forall i, j | 0 <= i < j < |log| :: log[i].key != log[j].key && log[i].id != log[j].id)
    && (forall i | 0 <= i < |log| :: log[i].id < nextId)
  }

  ghost predicate Unused(log: Log, key: string) {
    forall i | 0 <= i < |log| :: log[i].key != key
  }

  /** The row a key has, and whether it is the same operation's. */
  ghost predicate HasRow(log: Log, job: Job, status: Status, same: bool) {
    exists i | 0 <= i < |log| ::
      log[i].key == job.key && log[i].status == status && (same <==> log[i].checksum == Checksum(job.command, job.plan))
  }

  ghost predicate Survives(job: Job, fault: Fault) {
    fault.NoFault? || (fault.AtStatement? && fault.index >= |job.plan|)
  }

  predicate LetterOrDigit(c: char) {
    'a' <= c <= 'z' || 'A' <= c <= 'Z' || '0' <= c <= '9'
  }

  /** Up to 200 letters, digits, dots, underscores and hyphens, a letter or digit first. */
  predicate KeyAllowed(key: string) {
    && 0 < |key| < 201 && LetterOrDigit(key[0])
    && forall i | 1 <= i < |key| :: LetterOrDigit(key[i]) || key[i] == '.' || key[i] == '_' || key[i] == '-'
  }

  lemma KeyMeans(key: string)
    ensures ValidKey(key) <==> KeyAllowed(key)
  {
    assert forall c :: c in "._-" <==> c == '.' || c == '_' || c == '-';
  }

  /**
   When each answer is given: an execution needs a valid key that is unused, or whose row is a
   failure of the same operation, and a plan that goes through.
  */
  lemma AloneAnswers(db: Db, log: Log, nextId: nat, job: Job, fault: Fault)
    requires Orderly(log, nextId)
    ensures var outcome := Alone(db, log, nextId, job, fault).outcome;
            && (outcome.DryRunDone? <==>
                  job.dryRun && !(fault.AtStatement? && fault.index < |job.plan|) && ApplyAll(job.plan, db).Some?)
            && (outcome.Executed? <==>
                  && !job.dryRun && KeyAllowed(job.key) && Survives(job, fault) && ApplyAll(job.plan, db).Some?
                  && (Unused(log, job.key) || HasRow(log, job, Failed, true)))
            && (outcome.Replayed? <==> !job.dryRun && KeyAllowed(job.key) && HasRow(log, job, Succeeded, true))
            && (outcome.Conflicted? <==>
                  && !job.dryRun
                  && (!KeyAllowed(job.key) || HasRow(log, job, Running, true)
                      || exists status :: HasRow(log, job, status, false)))
  {
    KeyMeans(job.key);
    var found := Find(log, job.key);
    if found.Some? {
      var i :| 0 <= i < |log| && log[i] == found.value;
      assert forall j | 0 <= j < |log| && log[j].key == job.key :: j == i;
      assert HasRow(log, job, log[i].status, log[i].checksum == Checksum(job.command, job.plan));
    } else {
      assert forall j | 0 <= j < |log| :: log[j] in log;
    }
  }

  /** An execution under an unused key adds one row, and its plan is what the database underwent. */
  lemma FirstExecution(db: Db, log: Log, nextId: nat, job: Job)
    requires Orderly(log, nextId) && Unused(log, job.key) && KeyAllowed(job.key) && !job.dryRun
    requires ApplyAll(job.plan, db).Some?
    ensures var row := Record(nextId, job.key, job.command, Checksum(job.command, job.plan), Succeeded, None, Some(|job.plan|));
            Alone(db, log, nextId, job, NoFault)
            == Result(ApplyAll(job.plan, db).value, log + [row], nextId + 1, Executed(row))
  {
    KeyMeans(job.key);
    var checksum := Checksum(job.command, job.plan);
    assert Find(log, job.key).None?;
    var first := FreshRecord(nextId, job.key, checksum);
    assert Begin(log, nextId, job.key, checksum) == (log + [first], Accepted(first, false));
    assert MarkSucceeded(log + [first], nextId, |job.plan|)
        == log + [first.(status := Succeeded, result := Some(|job.plan|))];
  }

  /** The row a claim was accepted for is the row that is then marked. */
  lemma AcceptedIsRecorded(log: Log, id: nat, key: string, checksum: Checksum, result: nat)
    requires Begin(log, id, key, checksum).1.Accepted?
    ensures var (history, begun) := Begin(log, id, key, checksum);
            begun.record.(status := Succeeded, result := Some(result)) in MarkSucceeded(history, begun.record.id, result)
            && begun.record.key == key
  {
    var (history, begun) := Begin(log, id, key, checksum);
    var marked := MarkSucceeded(history, begun.record.id, result);
    assert begun.record in history by {
      if Find(log, key).None? {
        assert history[|log|] == begun.record;
      } else {
        var existing := Find(log, key).value;
        var i :| 0 <= i < |log| && log[i] == existing;
        assert history[i] == begun.record;
      }
    }
    var k :| 0 <= k < |history| && history[k] == begun.record;
    assert marked[k] == begun.record.(status := Succeeded, result := Some(result));
  }

  /** A refusal anywhere in a statement list refuses the list. */
  lemma {:induction false} PrefixRefuses(plan: seq<Stmt>, n: nat, db: Db)
    requires n <= |plan| && ApplyAll(plan[..n], db).None?
    ensures ApplyAll(plan, db).None?
    decreases |plan|
  {
    if n > 0 {
      assert plan[..n][1..] == plan[1..][..n - 1];
      var next := Apply(plan[0], db);
      if next.Some? {
        PrefixRefuses(plan[1..], n - 1, next.value);
      }
    }
  }

  // ---------- an attempt is a run of the protocol ----------

  lemma {:induction false} RunJoins(cfg: Config, s: System, first: seq<Action>, mid: System, rest: seq<Action>)
    requires Run(cfg, s, first) == Some(mid)
    ensures Run(cfg, s, first + rest) == Run(cfg, mid, rest)
    decreases |first|
  {
    if first == [] {
      assert first + rest == rest;
    } else {
      assert (first + rest)[0] == first[0] && (first + rest)[1..] == first[1..] + rest;
      RunJoins(cfg, Next(cfg, s, first[0]).value, first[1..], mid, rest);
    }
  }

  lemma RunOne(cfg: Config, s: System, a: Action)
    ensures Run(cfg, s, [a]) == Next(cfg, s, a)
  {
    assert [a][1..] == [];
  }

  lemma RunThen(cfg: Config, s: System, first: seq<Action>, mid: System, a: Action, s': System)
    requires Run(cfg, s, first) == Some(mid) && Next(cfg, mid, a) == Some(s')
    ensures Run(cfg, s, first + [a]) == Some(s')
  {
    RunJoins(cfg, s, first, mid, [a]);
    RunOne(cfg, mid, a);
  }

  function Statements(c: ClientId, n: nat): seq<Action> {
    seq(n, i => RunStatement(c))
  }

  /** A transaction about to run its statements. */
  ghost predicate Ready(s: System, c: ClientId, t: Client) {
    && t.InTransaction? && t.pc == 0 && !t.recorded && ClientOf(s, c) == t && s.lock == Some(c)
    && (t.job.dryRun || t.claim.Some?)
  }

  function After(s: System, c: ClientId, t: Client, work: Db, pc: nat): System
    requires t.InTransaction?
  {
    SetClient(s, c, t.(work := work, pc := pc))
  }

  /** The first `n` statements, when none is refused. */
  lemma {:induction false} StatementsRun(cfg: Config, s: System, c: ClientId, t: Client, n: nat, work: Db)
    requires Ready(s, c, t) && n <= |t.job.plan| && ApplyAll(t.job.plan[..n], t.work) == Some(work)
    ensures Run(cfg, s, Statements(c, n)) == Some(if n == 0 then s else After(s, c, t, work, n))
  {
    if n > 0 {
      var plan := t.job.plan;
      assert plan[..n][..n - 1] == plan[..n - 1];
      if ApplyAll(plan[..n - 1], t.work).None? {
        PrefixRefuses(plan[..n], n - 1, t.work);
        assert false;
      }
      var before := ApplyAll(plan[..n - 1], t.work).value;
      StatementsRun(cfg, s, c, t, n - 1, before);
      PrefixExtends(plan, n - 1, t.work, before);
      OneStatement(s, c, t, n - 1, before, work);
      assert Statements(c, n) == Statements(c, n - 1) + [RunStatement(c)];
      RunThen(cfg, s, Statements(c, n - 1), if n == 1 then s else After(s, c, t, before, n - 1),
              RunStatement(c), After(s, c, t, work, n));
    }
  }

  lemma OneStatement(s: System, c: ClientId, t: Client, pc: nat, work: Db, work': Db)
    requires Ready(s, c, t) && pc < |t.job.plan|
    requires pc == 0 ==> work == t.work
    requires Apply(t.job.plan[pc], work) == Some(work')
    ensures NextStatement(if pc == 0 then s else After(s, c, t, work, pc), c) == Some(After(s, c, t, work', pc + 1))
  {
    assert s.clients[c := t.(work := work, pc := pc)][c := t.(work := work', pc := pc + 1)]
        == s.clients[c := t.(work := work', pc := pc + 1)];
  }

  /** The state in the middle of the loop. */
  function Middle(s: System, c: ClientId, t: Client, work: Db, pc: nat): System
    requires t.InTransaction?
  {
    if pc == 0 then s else After(s, c, t, work, pc)
  }

  lemma MiddleIs(s: System, c: ClientId, t: Client, work: Db, pc: nat)
    requires Ready(s, c, t) && (pc == 0 ==> work == t.work)
    ensures var m := Middle(s, c, t, work, pc);
            ClientOf(m, c) == t.(work := work, pc := pc)
            && m.db == s.db && m.log == s.log && m.nextId == s.nextId && m.lock == s.lock
  {
  }

  lemma {:induction false} FailsAt(plan: seq<Stmt>, n: nat, db: Db) returns (k: nat, work: Db)
    requires n <= |plan| && ApplyAll(plan[..n], db).None?
    ensures k < n && ApplyAll(plan[..k], db) == Some(work) && Apply(plan[k], work).None?
  {
    assert plan[..0] == [];
    if ApplyAll(plan[..n - 1], db).None? {
      k, work := FailsAt(plan, n - 1, db);
    } else {
      k, work := n - 1, ApplyAll(plan[..n - 1], db).value;
      PrefixExtends(plan, k, db, work);
    }
  }

  /** Nothing but the client's own actions, and no new submission. */
  ghost predicate OwnActions(actions: seq<Action>, c: ClientId) {
    forall a <- actions :: a.client == c && !a.Submit?
  }

  /** The transaction is over, and published nothing. */
  ghost predicate EndedAs(s: System, s': System, c: ClientId, outcome: Outcome) {
    && ClientOf(s', c) == Finished(outcome) && s'.lock.None?
    && s'.db == s.db && s'.log == s.log && s'.nextId == s.nextId
  }

  lemma LoopStops(cfg: Config, s: System, c: ClientId, t: Client, pc: nat, work: Db, last: Action)
    returns (actions: seq<Action>, s': System)
    requires Ready(s, c, t) && pc <= |t.job.plan| && ApplyAll(t.job.plan[..pc], t.work) == Some(work)
    requires last == Cut(c) || (last == RunStatement(c) && pc < |t.job.plan| && Apply(t.job.plan[pc], work).None?)
    ensures OwnActions(actions, c) && Run(cfg, s, actions) == Some(s') && EndedAs(s, s', c, Broken)
  {
    assert pc == 0 ==> t.job.plan[..pc] == [] && work == t.work;
    MiddleIs(s, c, t, work, pc);
    StatementsRun(cfg, s, c, t, pc, work);
    var m := Middle(s, c, t, work, pc);
    s' := Release(m, c, Broken);
    actions := Statements(c, pc) + [last];
    RunThen(cfg, s, Statements(c, pc), m, last, s');
  }

  /** A statement loop that does not finish ends the transaction and publishes nothing. */
  lemma LoopFails(cfg: Config, s: System, c: ClientId, t: Client, fault: Fault) returns (actions: seq<Action>, s': System)
    requires Ready(s, c, t) && PlanResult(t.job.plan, t.work, fault).None?
    ensures OwnActions(actions, c) && Run(cfg, s, actions) == Some(s') && EndedAs(s, s', c, Broken)
  {
    var plan := t.job.plan;
    var limit := if fault.AtStatement? && fault.index < |plan| then fault.index else |plan|;
    assert plan[..|plan|] == plan;
    if ApplyAll(plan[..limit], t.work).Some? {
      actions, s' := LoopStops(cfg, s, c, t, limit, ApplyAll(plan[..limit], t.work).value, Cut(c));
    } else {
      var k, work := FailsAt(plan, limit, t.work);
      actions, s' := LoopStops(cfg, s, c, t, k, work, RunStatement(c));
    }
  }

  // ---------- the ends of an attempt ----------

  /** The state after taking the lock. */
  function Locked(s: System, c: ClientId, job: Job): System {
    SetClient(s, c, InTransaction(job, s.db, s.log, None, 0, false)).(lock := Some(c))
  }

  ghost predicate Waiting(s: System, c: ClientId, job: Job) {
    ClientOf(s, c) == Compiled(job) && s.lock.None?
  }

  /** What the protocol reaches is what an attempt alone comes to. */
  ghost predicate Reaches(s: System, s': System, c: ClientId, end: Result) {
    && s'.db == end.db && s'.log == end.log && s'.nextId == end.nextId
    && ClientOf(s', c) == Finished(end.outcome) && s'.lock.None?
  }

  lemma DryRunEnds(cfg: Config, s: System, c: ClientId, t: Client, work: Db) returns (actions: seq<Action>, s': System)
    requires Ready(s, c, t) && t.job.dryRun && ApplyAll(t.job.plan, t.work) == Some(work)
    ensures OwnActions(actions, c) && Run(cfg, s, actions) == Some(s') && EndedAs(s, s', c, DryRunDone)
  {
    var n := |t.job.plan|;
    assert t.job.plan[..n] == t.job.plan;
    assert n == 0 ==> t.job.plan == [] && work == t.work;
    StatementsRun(cfg, s, c, t, n, work);
    MiddleIs(s, c, t, work, n);
    var m := Middle(s, c, t, work, n);
    s' := Release(m, c, DryRunDone);
    actions := Statements(c, n) + [EndDryRun(c)];
    RunThen(cfg, s, Statements(c, n), m, EndDryRun(c), s');
  }

  lemma DryRunRuns(cfg: Config, s: System, c: ClientId, job: Job, fault: Fault) returns (actions: seq<Action>, s': System)
    requires Waiting(s, c, job) && job.dryRun
    ensures OwnActions(actions, c) && Run(cfg, s, actions) == Some(s')
    ensures Reaches(s, s', c, Alone(s.db, s.log, s.nextId, job, fault))
  {
    var locked := Locked(s, c, job);
    var t := ClientOf(locked, c);
    RunOne(cfg, s, Lock(c));
    var rest: seq<Action>;
    if PlanResult(job.plan, s.db, fault).None? {
      rest, s' := LoopFails(cfg, locked, c, t, fault);
    } else {
      rest, s' := DryRunEnds(cfg, locked, c, t, ApplyAll(job.plan, s.db).value);
    }
    actions := [Lock(c)] + rest;
    RunJoins(cfg, s, [Lock(c)], locked, rest);
  }

  lemma {:induction false} FindLast(log: Log, r: Record)
    requires Find(log, r.key).None?
    ensures Find(log + [r], r.key) == Some(r)
  {
    if log == [] {
      assert log + [r] == [r];
    } else {
      assert (log + [r])[1..] == log[1..] + [r];
      FindLast(log[1..], r);
    }
  }

  /** After the success update the claimed row is the one found under the key. */
  lemma MarkedIsFound(cfg: Config, log: Log, nextId: nat, job: Job)
    requires History(cfg, log, nextId)
    requires Begin(log, nextId, job.key, Checksum(job.command, job.plan)).1.Accepted?
    ensures var (history, begun) := Begin(log, nextId, job.key, Checksum(job.command, job.plan));
            Find(MarkSucceeded(history, begun.record.id, |job.plan|), job.key)
            == Some(begun.record.(status := Succeeded, result := Some(|job.plan|)))
  {
    var (history, begun) := Begin(log, nextId, job.key, Checksum(job.command, job.plan));
    var row := begun.record.(status := Succeeded, result := Some(|job.plan|));
    assert MarkSucceeded(history, begun.record.id, |job.plan|) == log + [row];
    FindLast(log, row);
  }

  /** The transaction after an accepted claim. */
  function ClaimedClient(s: System, job: Job): Client {
    var (history, begun) := Begin(s.log, s.nextId, job.key, Checksum(job.command, job.plan));
    InTransaction(job, s.db, history, if begun.Accepted? then Some(begun.record.id) else None, 0, false)
  }

  /** Lock and claim: the attempt ends, or stands ready to run its statements. */
  lemma ClaimRuns(cfg: Config, s: System, c: ClientId, job: Job) returns (s': System)
    requires Waiting(s, c, job) && !job.dryRun
    ensures Run(cfg, s, [Lock(c), Claim(c)]) == Some(s')
    ensures s'.db == s.db && s'.log == s.log && s'.nextId == s.nextId + 1
    ensures var begun := Begin(s.log, s.nextId, job.key, Checksum(job.command, job.plan)).1;
            if begun.Accepted? then Ready(s', c, ClaimedClient(s, job))
            else s'.lock.None? && ClientOf(s', c) == Finished(if begun.Replay? then Replayed(begun.record) else Conflicted)
  {
    var locked := Locked(s, c, job);
    s' := NextClaim(locked, c).value;
    RunOne(cfg, s, Lock(c));
    RunThen(cfg, s, [Lock(c)], locked, Claim(c), s');
    assert [Lock(c)] + [Claim(c)] == [Lock(c), Claim(c)];
  }

  function Ending(c: ClientId, fault: Fault): seq<Action> {
    [RecordSuccess(c), Commit(c, !fault.AnswerLost?)]
  }

  /** The success update and the COMMIT, its answer lost or not. */
  lemma EndingRuns(cfg: Config, m: System, c: ClientId, t: Client, fault: Fault, row: Record) returns (s': System)
    requires ClientOf(m, c) == t && t.InTransaction? && t.pc == |t.job.plan| && t.claim.Some? && !t.recorded
    requires Find(MarkSucceeded(t.history, t.claim.value, |t.job.plan|), t.job.key) == Some(row)
    ensures Run(cfg, m, Ending(c, fault)) == Some(s')
    ensures s'.db == t.work && s'.log == MarkSucceeded(t.history, t.claim.value, |t.job.plan|)
    ensures s'.nextId == m.nextId && s'.lock.None?
    ensures ClientOf(s', c) == Finished(if fault.AnswerLost? then Broken else Executed(row))
  {
    var recorded := NextRecord(m, c).value;
    s' := NextCommit(recorded, c, !fault.AnswerLost?).value;
    RunOne(cfg, m, RecordSuccess(c));
    RunThen(cfg, m, [RecordSuccess(c)], recorded, Commit(c, !fault.AnswerLost?), s');
    assert [RecordSuccess(c)] + [Commit(c, !fault.AnswerLost?)] == Ending(c, fault);
  }

  /** A transaction whose statements all succeed, to its end. */
  lemma LoopEnds(cfg: Config, s: System, c: ClientId, t: Client, fault: Fault, work: Db, row: Record) returns (s': System)
    requires Ready(s, c, t) && t.claim.Some? && ApplyAll(t.job.plan, t.work) == Some(work)
    requires Find(MarkSucceeded(t.history, t.claim.value, |t.job.plan|), t.job.key) == Some(row)
    ensures Run(cfg, s, Statements(c, |t.job.plan|) + Ending(c, fault)) == Some(s')
    ensures s'.db == work && s'.log == MarkSucceeded(t.history, t.claim.value, |t.job.plan|)
    ensures s'.nextId == s.nextId && s'.lock.None?
    ensures ClientOf(s', c) == Finished(if fault.AnswerLost? then Broken else Executed(row))
  {
    var n := |t.job.plan|;
    assert t.job.plan[..n] == t.job.plan;
    assert n == 0 ==> t.job.plan == [] && work == t.work;
    StatementsRun(cfg, s, c, t, n, work);
    MiddleIs(s, c, t, work, n);
    var m := Middle(s, c, t, work, n);
    s' := EndingRuns(cfg, m, c, t.(work := work, pc := n), fault, row);
    RunJoins(cfg, s, Statements(c, n), m, Ending(c, fault));
  }

  /** The actions of an attempt that takes effect. */
  function FullAttempt(c: ClientId, job: Job, fault: Fault): seq<Action> {
    [Lock(c), Claim(c)] + (Statements(c, |job.plan|) + Ending(c, fault))
  }

  lemma FullAttemptOwn(c: ClientId, job: Job, fault: Fault)
    ensures OwnActions(FullAttempt(c, job, fault), c)
  {
    var steps := Statements(c, |job.plan|);
    assert forall i | 0 <= i < |steps| :: steps[i] == RunStatement(c);
  }

  ghost predicate TakesEffect(s: System, job: Job, fault: Fault) {
    && !job.dryRun && Begin(s.log, s.nextId, job.key, Checksum(job.command, job.plan)).1.Accepted?
    && PlanResult(job.plan, s.db, fault).Some? && !fault.BeforeCommit?
  }

  lemma EffectRuns(cfg: Config, s: System, c: ClientId, job: Job, fault: Fault) returns (s': System)
    requires Waiting(s, c, job) && History(cfg, s.log, s.nextId) && TakesEffect(s, job, fault)
    ensures Run(cfg, s, FullAttempt(c, job, fault)) == Some(s')
    ensures Reaches(s, s', c, Alone(s.db, s.log, s.nextId, job, fault))
  {
    var claimed := ClaimRuns(cfg, s, c, job);
    var t := ClaimedClient(s, job);
    var begun := Begin(s.log, s.nextId, job.key, Checksum(job.command, job.plan)).1;
    MarkedIsFound(cfg, s.log, s.nextId, job);
    s' := LoopEnds(cfg, claimed, c, t, fault, ApplyAll(job.plan, s.db).value,
                   begun.record.(status := Succeeded, result := Some(|job.plan|)));
    RunJoins(cfg, s, [Lock(c), Claim(c)], claimed, Statements(c, |job.plan|) + Ending(c, fault));
  }

  lemma NoEffectRuns(cfg: Config, s: System, c: ClientId, job: Job, fault: Fault) returns (actions: seq<Action>, s': System)
    requires Waiting(s, c, job) && !job.dryRun && !TakesEffect(s, job, fault)
    ensures OwnActions(actions, c) && Run(cfg, s, actions) == Some(s')
    ensures Reaches(s, s', c, Alone(s.db, s.log, s.nextId, job, fault))
  {
    var claimed := ClaimRuns(cfg, s, c, job);
    actions, s' := [Lock(c), Claim(c)], claimed;
    if Begin(s.log, s.nextId, job.key, Checksum(job.command, job.plan)).1.Accepted? {
      var t := ClaimedClient(s, job);
      var rest: seq<Action>;
      if PlanResult(job.plan, s.db, fault).None? {
        rest, s' := LoopFails(cfg, claimed, c, t, fault);
      } else {
        assert job.plan[..|job.plan|] == job.plan;
        rest, s' := LoopStops(cfg, claimed, c, t, |job.plan|, ApplyAll(job.plan, s.db).value, Cut(c));
      }
      RunJoins(cfg, s, [Lock(c), Claim(c)], claimed, rest);
      actions := [Lock(c), Claim(c)] + rest;
    }
  }

  /**
   An uninterleaved attempt is a run of the protocol: from any state with a history as every
   run keeps it and with the lock free, the client's own actions lead to the state and the answer of `Execute`, for every
   fault; when it takes effect they are lock, claim, one action per statement, success update
   and COMMIT.
  */
  lemma SessionIsRun(cfg: Config, s: System, c: ClientId, job: Job, fault: Fault)
    returns (actions: seq<Action>, s': System)
    requires History(cfg, s.log, s.nextId) && Waiting(s, c, job)
    ensures OwnActions(actions, c) && Run(cfg, s, actions) == Some(s')
    ensures Reaches(s, s', c, Alone(s.db, s.log, s.nextId, job, fault))
    ensures TakesEffect(s, job, fault) ==> actions == FullAttempt(c, job, fault)
  {
    if job.dryRun {
      actions, s' := DryRunRuns(cfg, s, c, job, fault);
    } else if TakesEffect(s, job, fault) {
      s' := EffectRuns(cfg, s, c, job, fault);
      FullAttemptOwn(c, job, fault);
      actions := FullAttempt(c, job, fault);
    } else {
      actions, s' := NoEffectRuns(cfg, s, c, job, fault);
    }
  }
}
