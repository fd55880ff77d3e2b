/**
 Retried keys: what happens when a client submits under a key the history already holds,
 at any later time and among any other clients.
*/
module Replays {
  import opened Common
  import opened Ddl
  import opened Commands
  import opened OperationLog
  import opened Services
  import opened Executor

  /** A key has one row. */
  lemma {:induction false} FindRecord(log: Log, r: Record)
    requires r in log
    requires forall i, j | 0 <= i < j < |log| :: log[i].key != log[j].key
    ensures Find(log, r.key) == Some(r)
  {
    if log[0] != r {
      var i :| 0 <= i < |log| && log[i] == r;
      assert log[0].key != log[i].key;
      assert log[1..][i - 1] == r;
      FindRecord(log[1..], r);
    } else if log[1..] != [] {
      assert log[0] == r;
    }
  }

  lemma RecordFacts(cfg: Config, log: Log, nextId: nat, r: Record)
    requires History(cfg, log, nextId) && r in log
    ensures Find(log, r.key) == Some(r) && r.status == Succeeded && ValidKey(r.key)
    ensures Compile(cfg, r.command).Some? && r.checksum == Checksum(r.command, Compile(cfg, r.command).value)
  {
    FindRecord(log, r);
    var i :| 0 <= i < |log| && log[i] == r;
    assert r.checksum == Checksum(r.command, Compile(cfg, r.command).value);
  }

  /** What a client that submitted under the key of `r` can still be, until it submits again. */
  ghost predicate Bound(client: Client, r: Record, command: Command, dryRun: bool) {
    match client
    case Idle => false
    case Compiled(job) => job.key == r.key && job.command == command && job.dryRun == dryRun
    case InTransaction(job, _, _, claim, _, recorded) =>
      job.key == r.key && job.command == command && job.dryRun == dryRun && claim.None? && !recorded
    case Finished(outcome) =>
      || outcome == Broken
      || (if dryRun then outcome == DryRunDone
          else if command == r.command then outcome == Replayed(r)
          else outcome == Conflicted)
  }

  /** `begin` under a key that has succeeded: a replay, or a refusal of the reused key. */
  lemma BeginKnown(log: Log, id: nat, r: Record, checksum: Checksum)
    requires Find(log, r.key) == Some(r) && r.status == Succeeded && ValidKey(r.key)
    ensures Begin(log, id, r.key, checksum) == (log, if r.checksum == checksum then Replay(r) else Rejected(KeyReused))
  {
  }

  lemma BoundClaim(cfg: Config, init: Db, s: System, c: ClientId, s': System, r: Record, command: Command, dryRun: bool)
    requires Inv(cfg, init, s) && r in s.log
    requires Bound(ClientOf(s, c), r, command, dryRun)
    requires NextClaim(s, c) == Some(s')
    ensures Bound(ClientOf(s', c), r, command, dryRun)
  {
    RecordFacts(cfg, s.log, s.nextId, r);
    assert ClientInv(cfg, s, c);
    ClaimOfKnown(s, c, s', r);
  }

  lemma ClaimOfKnown(s: System, c: ClientId, s': System, r: Record)
    requires ClientOf(s, c).InTransaction? && ClientOf(s, c).job.key == r.key && ClientOf(s, c).history == s.log
    requires Find(s.log, r.key) == Some(r) && r.status == Succeeded && ValidKey(r.key)
    requires NextClaim(s, c) == Some(s')
    ensures !ClientOf(s, c).job.dryRun
    ensures var job := ClientOf(s, c).job;
            ClientOf(s', c) == Finished(if r.checksum == Checksum(job.command, job.plan) then Replayed(r) else Conflicted)
  {
    var job := ClientOf(s, c).job;
    BeginKnown(s.log, s.nextId, r, Checksum(job.command, job.plan));
  }

  /** No action of anybody gets a bound client out of its binding, nor lets it publish anything. */
  lemma BoundKept(cfg: Config, init: Db, s: System, a: Action, s': System, c: ClientId, r: Record,
                  command: Command, dryRun: bool)
    requires Inv(cfg, init, s) && r in s.log
    requires Bound(ClientOf(s, c), r, command, dryRun)
    requires Next(cfg, s, a) == Some(s')
    requires a.client == c ==> !a.Submit?
    ensures Bound(ClientOf(s', c), r, command, dryRun)
    ensures a.client == c ==> s'.db == s.db && s'.log == s.log
  {
    OneClient(cfg, s, a, s');
    if a == Claim(c) {
      BoundClaim(cfg, init, s, c, s', r, command, dryRun);
    }
  }

  // ---------- silence over a run ----------

  /** Every action of `c` in the run leaves the published database and history as they were. */
  ghost predicate Silent(cfg: Config, s: System, actions: seq<Action>, c: ClientId)
    decreases |actions|
  {
    actions == [] || Next(cfg, s, actions[0]).None? ||
    (var next := Next(cfg, s, actions[0]).value;
     && (actions[0].client == c ==> next.db == s.db && next.log == s.log)
     && Silent(cfg, next, actions[1..], c))
  }

  /** How many transactions of `c` took effect. */
  function CommitsBy(c: ClientId, actions: seq<Action>): nat {
    if actions == [] then 0
    else (if actions[0].Commit? && actions[0].client == c then 1 else 0) + CommitsBy(c, actions[1..])
  }

  /** A finished client can only submit. */
  lemma FinishedIsIdle(cfg: Config, s: System, a: Action)
    requires ClientOf(s, a.client).Finished? && !a.Submit?
    ensures Next(cfg, s, a).None?
  {
  }

  lemma {:induction false} BoundThroughRun(cfg: Config, init: Db, s: System, actions: seq<Action>, s': System,
                                           c: ClientId, r: Record, command: Command, dryRun: bool)
    requires Inv(cfg, init, s) && r in s.log
    requires Bound(ClientOf(s, c), r, command, dryRun)
    requires Run(cfg, s, actions) == Some(s')
    requires forall a <- actions :: a.client == c ==> !a.Submit?
    ensures Bound(ClientOf(s', c), r, command, dryRun)
    ensures Silent(cfg, s, actions, c) && CommitsBy(c, actions) == 0
    ensures r in s'.log
    decreases |actions|
  {
    if actions != [] {
      var next := Next(cfg, s, actions[0]).value;
      assert actions[0] in actions;
      StepKeepsInv(cfg, init, s, actions[0], next);
      BoundKept(cfg, init, s, actions[0], next, c, r, command, dryRun);
      assert forall a <- actions[1..] :: a in actions;
      var i :| 0 <= i < |s.log| && s.log[i] == r;
      assert next.log[i] == r;
      BoundThroughRun(cfg, init, next, actions[1..], s', c, r, command, dryRun);
    }
  }

  /** The recorded command, and not what the catalogue says by now, decides what is recompiled. */
  lemma SameInputRecompiles(cfg: Config, init: Db, s: System, r: Record, input: Input, live: Live, c: ClientId, s': System)
    requires Inv(cfg, init, s) && r in s.log
    requires CameFrom(input, r.command)
    requires Next(cfg, s, Submit(c, r.key, input, false, live)) == Some(s')
    ensures ClientOf(s', c) == Compiled(Job(r.key, r.command, r.checksum.statements, false))
  {
    RecordFacts(cfg, s.log, s.nextId, r);
    var first: Live :| Resolve(input, None, false, first) == Ok(r.command);
    assert FromRecord(input, r.command) == Ok(r.command);
  }

  /**
   Replay stability: whatever happened since (retyped columns, dropped or renamed tables,
   drifted policies) and whoever runs in between, resubmitting the input of a recorded
   success under its key recompiles the recorded statement list and can only end in the
   recorded outcome, unless the connection breaks.  Whichever it is, it published nothing: not
   the submission and no later action of the client changed the database or the history.
  */
  lemma ReplayIsStable(cfg: Config, init: Db, s: System, r: Record, input: Input, live: Live, c: ClientId,
                       submitted: System, actions: seq<Action>, s': System)
    requires Inv(cfg, init, s) && r in s.log
    requires CameFrom(input, r.command)
    requires Next(cfg, s, Submit(c, r.key, input, false, live)) == Some(submitted)
    requires Run(cfg, submitted, actions) == Some(s')
    requires forall a <- actions :: a.client == c ==> !a.Submit?
    ensures Bound(ClientOf(s', c), r, r.command, false)
    ensures ClientOf(s', c).Finished? ==> ClientOf(s', c).outcome in {Replayed(r), Broken}
    ensures submitted.db == s.db && submitted.log == s.log
    ensures Silent(cfg, submitted, actions, c) && CommitsBy(c, actions) == 0
  {
    OneClient(cfg, s, Submit(c, r.key, input, false, live), submitted);
    SameInputRecompiles(cfg, init, s, r, input, live, c, submitted);
    StepKeepsInv(cfg, init, s, Submit(c, r.key, input, false, live), submitted);
    BoundThroughRun(cfg, init, submitted, actions, s', c, r, r.command, false);
  }

  lemma RunThree(cfg: Config, s: System, a: Action, b: Action, d: Action, s1: System, s2: System, s3: System)
    requires Next(cfg, s, a) == Some(s1) && Next(cfg, s1, b) == Some(s2) && Next(cfg, s2, d) == Some(s3)
    ensures Run(cfg, s, [a, b, d]) == Some(s3)
  {
    assert [a, b, d][1..] == [b, d] && [b, d][1..] == [d] && [d][1..] == [];
    assert Run(cfg, s3, []) == Some(s3);
    assert Run(cfg, s2, [d]) == Some(s3);
    assert Run(cfg, s1, [b, d]) == Some(s3);
  }

  lemma ClaimReplays(s: System, c: ClientId, r: Record)
    requires Find(s.log, r.key) == Some(r) && r.status == Succeeded && ValidKey(r.key)
    requires r.checksum.command == r.command
    requires ClientOf(s, c) == InTransaction(Job(r.key, r.command, r.checksum.statements, false), s.db, s.log, None, 0, false)
    ensures NextClaim(s, c) == Some(Release(s.(nextId := s.nextId + 1), c, Replayed(r)))
  {
    assert Checksum(r.command, r.checksum.statements) == r.checksum;
    BeginKnown(s.log, s.nextId, r, r.checksum);
  }

  /** With the lock free, the retry does reach its recorded outcome, in three steps. */
  lemma ReplayIsReached(cfg: Config, init: Db, s: System, r: Record, input: Input, live: Live, c: ClientId)
    requires Inv(cfg, init, s) && r in s.log && CameFrom(input, r.command)
    requires s.lock.None? && !ClientOf(s, c).Compiled? && !ClientOf(s, c).InTransaction?
    ensures var end := Run(cfg, s, [Submit(c, r.key, input, false, live), Lock(c), Claim(c)]);
      end.Some? && ClientOf(end.value, c) == Finished(Replayed(r)) && end.value.db == s.db && end.value.log == s.log
  {
    var submit := Submit(c, r.key, input, false, live);
    var s1 := SubmitKnown(cfg, init, s, r, input, live, c);
    RecordFacts(cfg, s.log, s.nextId, r);
    var s2, s3 := LockAndClaim(s1, c, r);
    RunThree(cfg, s, submit, Lock(c), Claim(c), s1, s2, s3);
  }

  lemma LockAndClaim(s: System, c: ClientId, r: Record) returns (s1: System, s2: System)
    requires s.lock.None? && ClientOf(s, c) == Compiled(Job(r.key, r.command, r.checksum.statements, false))
    requires Find(s.log, r.key) == Some(r) && r.status == Succeeded && ValidKey(r.key)
    requires r.checksum.command == r.command
    ensures NextLock(s, c) == Some(s1) && NextClaim(s1, c) == Some(s2)
    ensures ClientOf(s2, c) == Finished(Replayed(r)) && s2.db == s.db && s2.log == s.log
  {
    s1 := NextLock(s, c).value;
    ClaimReplays(s1, c, r);
    s2 := NextClaim(s1, c).value;
  }

  lemma SubmitKnown(cfg: Config, init: Db, s: System, r: Record, input: Input, live: Live, c: ClientId) returns (s1: System)
    requires Inv(cfg, init, s) && r in s.log && CameFrom(input, r.command)
    requires s.lock.None? && !ClientOf(s, c).Compiled? && !ClientOf(s, c).InTransaction?
    ensures Next(cfg, s, Submit(c, r.key, input, false, live)) == Some(s1)
    ensures s1.db == s.db && s1.log == s.log && s1.lock.None?
    ensures ClientOf(s1, c) == Compiled(Job(r.key, r.command, r.checksum.statements, false))
  {
    s1 := NextSubmit(cfg, s, Submit(c, r.key, input, false, live)).value;
    SameInputRecompiles(cfg, init, s, r, input, live, c, s1);
  }

  /**
   Whatever input comes in under a used key, and whatever its preflight answered, it changes
   nothing: neither the submission nor any later action of the client changes the database or
   the history, however the attempt ends.
  */
  lemma UsedKeyChangesNothing(cfg: Config, init: Db, s: System, r: Record, input: Input, dryRun: bool, live: Live,
                              c: ClientId, submitted: System, actions: seq<Action>, s': System)
    requires Inv(cfg, init, s) && r in s.log
    requires Next(cfg, s, Submit(c, r.key, input, dryRun, live)) == Some(submitted)
    requires Run(cfg, submitted, actions) == Some(s')
    requires forall a <- actions :: a.client == c ==> !a.Submit?
    ensures ClientOf(s', c).Finished? ==>
      var outcome := ClientOf(s', c).outcome;
      outcome.Refused? || outcome in {NotCompiled, Conflicted, DryRunDone, Replayed(r), Broken}
    ensures ClientOf(submitted, c).Finished? || exists command: Command :: Bound(ClientOf(s', c), r, command, dryRun)
    ensures submitted.db == s.db && submitted.log == s.log
    ensures Silent(cfg, submitted, actions, c) && CommitsBy(c, actions) == 0
  {
    SubmitEnds(cfg, s, r, input, dryRun, live, c, submitted);
    if ClientOf(submitted, c).Finished? {
      FinishedThroughRun(cfg, submitted, actions, s', c);
    } else {
      StepKeepsInv(cfg, init, s, Submit(c, r.key, input, dryRun, live), submitted);
      BoundThroughRun(cfg, init, submitted, actions, s', c, r, ClientOf(submitted, c).job.command, dryRun);
    }
  }

  lemma SubmitEnds(cfg: Config, s: System, r: Record, input: Input, dryRun: bool, live: Live, c: ClientId, submitted: System)
    requires Next(cfg, s, Submit(c, r.key, input, dryRun, live)) == Some(submitted)
    ensures submitted.db == s.db && submitted.log == s.log
    ensures var client := ClientOf(submitted, c);
            || (client.Finished? && (client.outcome.Refused? || client.outcome == NotCompiled))
            || (client.Compiled? && Bound(client, r, client.job.command, dryRun))
  {
  }

  lemma {:induction false} FinishedThroughRun(cfg: Config, s: System, actions: seq<Action>, s': System, c: ClientId)
    requires ClientOf(s, c).Finished?
    requires Run(cfg, s, actions) == Some(s')
    requires forall a <- actions :: a.client == c ==> !a.Submit?
    ensures ClientOf(s', c) == ClientOf(s, c)
    ensures Silent(cfg, s, actions, c) && CommitsBy(c, actions) == 0
    decreases |actions|
  {
    if actions != [] {
      var next := Next(cfg, s, actions[0]).value;
      assert actions[0] in actions;
      if actions[0].client == c {
        FinishedIsIdle(cfg, s, actions[0]);
        assert false;
      }
      OneClient(cfg, s, actions[0], next);
      assert forall a <- actions[1..] :: a in actions;
      FinishedThroughRun(cfg, next, actions[1..], s', c);
    }
  }
}
