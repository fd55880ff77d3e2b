/**
 The privileges of the restricted runtime role follow the registry: a table that is not
 exposed carries none, because expose grants and marks in one transaction and unexpose
 re-reads what is left after its REVOKE before it marks.
*/
module Privileges {
  import opened Common
  import opened Ddl
  import opened Commands
  import opened OperationLog
  import opened Services
  import opened Executor
  import opened Exposure

  /** Every existing table outside `except` that is not exposed is out of the role's reach. */
  ghost predicate SealedExcept(db: Db, role: string, except: set<Target>) {
    && (forall g <- db.grants :: g.table in db.tables)
    && (forall t | Exists(db, t) && !Exposed(db, t) && t !in except :: !HoldsPrivilege(db, db.names[t], role))
  }

  ghost predicate Sealed(db: Db, role: string) {
    SealedExcept(db, role, {})
  }

  /** A change that hands out no privilege, renames nothing and leaves the registry alone. */
  ghost predicate Shrinks(db: Db, db': Db) {
    && db'.grants <= db.grants
    && db'.registry == db.registry
    && (forall g <- db'.grants :: g.table in db.tables ==> g.table in db'.tables)
    && (forall t | Exists(db', t) :: Exists(db, t) && db'.names[t] == db.names[t])
  }

  lemma ShrinkKeepsSealed(db: Db, role: string, except: set<Target>, db': Db)
    requires SealedExcept(db, role, except)
    requires Shrinks(db, db')
    ensures SealedExcept(db', role, except)
  {
  }

  lemma FrameShrinks(db: Db, db': Db)
    requires db'.names == db.names && db'.tables.Keys == db.tables.Keys && db'.registry == db.registry
    requires db'.grants <= db.grants
    ensures Shrinks(db, db')
  {
  }

  lemma AssertionShrinks(stmt: Stmt, db: Db, db': Db)
    requires IsAssertion(stmt)
    requires Apply(stmt, db) == Some(db')
    ensures Shrinks(db, db')
  {
    FrameShrinks(db, db');
  }

  lemma SimpleShrinks(stmt: Stmt, db: Db, db': Db)
    requires IsObject(stmt) || IsConstraint(stmt)
    requires Apply(stmt, db) == Some(db')
    ensures Shrinks(db, db')
  {
    FrameShrinks(db, db');
  }

  lemma AttributeShrinks(stmt: Stmt, db: Db, db': Db)
    requires IsAttribute(stmt)
    requires Apply(stmt, db) == Some(db')
    ensures Shrinks(db, db')
  {
    FrameShrinks(db, db');
  }

  lemma AlterShrinks(stmt: Stmt, db: Db, db': Db)
    requires IsRowSecurity(stmt) || stmt.AddColumn? || stmt.DropColumn?
    requires Apply(stmt, db) == Some(db')
    ensures Shrinks(db, db')
  {
    FrameShrinks(db, db');
  }

  lemma DropShrinks(stmt: Stmt, db: Db, db': Db)
    requires stmt.DropTable? || stmt.Revoke? || stmt.GrantUsage?
    requires Apply(stmt, db) == Some(db')
    ensures Shrinks(db, db')
  {
  }

  /** A new table has a fresh identity, so no grant names it. */
  lemma NewTableSealed(db: Db, role: string, t: Target, table: Table, db': Db)
    requires WellFormed(db) && Sealed(db, role) && t !in db.names
    requires db'.names == db.names[t := db.nextOid] && db'.tables == db.tables[db.nextOid := table]
    requires db'.grants == db.grants && db'.registry == db.registry
    ensures Sealed(db', role)
  {
    forall u | Exists(db', u) && !Exposed(db', u) ensures !HoldsPrivilege(db', db'.names[u], role) {
      if u != t {
        assert Exists(db, u) && !Exposed(db, u);
      } else {
        assert db.nextOid !in db.tables;
      }
    }
  }

  lemma CreateKeepsSealed(db: Db, role: string, t: Target, specs: seq<ColumnSpec>, db': Db)
    requires WellFormed(db) && Sealed(db, role)
    requires ApplyCreateTable(db, t, specs) == Some(db')
    ensures Sealed(db', role)
  {
    NewTableSealed(db, role, t, db'.tables[db.nextOid], db');
  }

  lemma RenameTableKeepsSealed(db: Db, role: string, t: Target, newName: string, db': Db)
    requires WellFormed(db) && Safe(db) && Sealed(db, role) && !Exposed(db, t)
    requires ApplyRenameTable(db, t, newName) == Some(db')
    ensures Sealed(db', role)
  {
    forall u | Exists(db', u) && !Exposed(db', u) ensures !HoldsPrivilege(db', db'.names[u], role) {
      if u == Target(t.schema, newName) {
        assert Exists(db, t);
      } else {
        assert Exists(db, u);
      }
    }
  }

  lemma RenameColumnKeepsSealed(db: Db, role: string, t: Target, column: string, newName: string, db': Db)
    requires Sealed(db, role)
    requires ApplyRenameColumn(db, t, column, newName) == Some(db')
    ensures Sealed(db', role)
  {
    forall u | Exists(db', u) && !Exposed(db', u) ensures !HoldsPrivilege(db', db'.names[u], role) {
      assert Exists(db, u) && !Exposed(db, u) && !HoldsPrivilege(db, db.names[u], role);
    }
  }

  ghost predicate Keyed(stmt: Stmt) {
    stmt.CreateTable? || stmt.RenameTable? || stmt.RenameColumn?
  }

  lemma StatementShrinks(stmt: Stmt, db: Db, db': Db)
    requires !Keyed(stmt) && !Marks(stmt) && (IsGrant(stmt) ==> stmt.Revoke? || stmt.GrantUsage?)
    requires Apply(stmt, db) == Some(db')
    ensures Shrinks(db, db')
  {
    if IsAssertion(stmt) { AssertionShrinks(stmt, db, db'); }
    else if IsObject(stmt) || IsConstraint(stmt) { SimpleShrinks(stmt, db, db'); }
    else if IsAttribute(stmt) { AttributeShrinks(stmt, db, db'); }
    else if stmt.DropTable? || stmt.Revoke? || stmt.GrantUsage? { DropShrinks(stmt, db, db'); }
    else { AlterShrinks(stmt, db, db'); }
  }

  lemma StatementKeepsSealed(stmt: Stmt, db: Db, role: string, db': Db)
    requires WellFormed(db) && Safe(db) && Admissible(stmt, db) && Sealed(db, role)
    requires !Marks(stmt) && (IsGrant(stmt) ==> stmt.Revoke? || stmt.GrantUsage?)
    requires Apply(stmt, db) == Some(db')
    ensures Sealed(db', role)
  {
    if Keyed(stmt) {
      match stmt
      case CreateTable(t, specs) => CreateKeepsSealed(db, role, t, specs, db');
      case RenameTable(t, newName) => RenameTableKeepsSealed(db, role, t, newName, db');
      case RenameColumn(t, column, newName) => RenameColumnKeepsSealed(db, role, t, column, newName, db');
    } else {
      StatementShrinks(stmt, db, db');
      ShrinkKeepsSealed(db, role, {}, db');
    }
  }

  // ---------- expose ----------

  ghost predicate GrantsOn(stmt: Stmt, t: Target, role: string) {
    || (stmt.GrantUsage? && stmt.role == role)
    || (stmt.GrantDelete? && stmt.target == t && stmt.role == role)
    || (stmt.GrantColumns? && stmt.target == t && stmt.role == role)
  }

  /** No grant is lost, and every new one is this role's on this table. */
  ghost predicate GrantsOnly(db: Db, db': Db, t: Target, role: string) {
    && db'.names == db.names && db.grants <= db'.grants
    && forall g <- db'.grants :: g in db.grants || (Exists(db, t) && g.table == db.names[t] && g.role == role)
  }

  lemma GrantIsOnly(stmt: Stmt, t: Target, role: string, db: Db, db': Db)
    requires GrantsOn(stmt, t, role)
    requires Apply(stmt, db) == Some(db')
    ensures GrantsOnly(db, db', t, role)
  {
  }

  lemma {:induction false} GrantsThenMarkOnly(grants: seq<Stmt>, alias: string, t: Target, db: Db, role: string, db': Db)
    requires forall g <- grants :: GrantsOn(g, t, role)
    requires ApplyAll(grants + [MarkExposed(alias, t)], db) == Some(db')
    ensures GrantsOnly(db, db', t, role)
  {
    var all := grants + [MarkExposed(alias, t)];
    if grants == [] {
      assert all == [MarkExposed(alias, t)] && all[1..] == [];
      assert ApplyMarkExposed(db, alias, t) == Some(db');
    } else {
      assert all[0] == grants[0] && all[1..] == grants[1..] + [MarkExposed(alias, t)];
      var mid := Apply(grants[0], db).value;
      GrantIsOnly(grants[0], t, role, db, mid);
      GrantsThenMarkOnly(grants[1..], alias, t, mid, role, db');
    }
  }

  lemma GrantKeepsSealedExcept(stmt: Stmt, t: Target, db: Db, role: string, db': Db)
    requires WellFormed(db) && SealedExcept(db, role, {t})
    requires GrantsOn(stmt, t, role)
    requires Apply(stmt, db) == Some(db')
    ensures WellFormed(db') && SealedExcept(db', role, {t})
    ensures db' == db.(grants := db'.grants, usage := db'.usage)
  {
    forall u | Exists(db', u) && !Exposed(db', u) && u != t ensures !HoldsPrivilege(db', db'.names[u], role) {
      assert Exists(db, u) && !Exposed(db, u) && !HoldsPrivilege(db, db.names[u], role);
    }
  }

  lemma {:induction false} GrantsThenMarkSealed(grants: seq<Stmt>, alias: string, t: Target, db: Db, role: string, db': Db)
    requires WellFormed(db) && SealedExcept(db, role, {t})
    requires forall g <- grants :: GrantsOn(g, t, role)
    requires ApplyAll(grants + [MarkExposed(alias, t)], db) == Some(db')
    ensures Sealed(db', role)
  {
    var all := grants + [MarkExposed(alias, t)];
    if grants == [] {
      assert all == [MarkExposed(alias, t)];
      assert all[1..] == [];
      assert ApplyMarkExposed(db, alias, t) == Some(db');
      forall u | Exists(db', u) && !Exposed(db', u) ensures !HoldsPrivilege(db', db'.names[u], role) {
        assert Exists(db, u) && !Exposed(db, u) && u != t;
      }
    } else {
      assert all[0] == grants[0] && all[1..] == grants[1..] + [MarkExposed(alias, t)];
      var mid := Apply(grants[0], db).value;
      GrantKeepsSealedExcept(grants[0], t, db, role, mid);
      GrantsThenMarkSealed(grants[1..], alias, t, mid, role, db');
    }
  }

  function ExposeGrants(cfg: Config, command: Command): seq<Stmt>
    requires command.Expose?
  {
    var t, role := command.target, cfg.runtimeRole;
    [GrantUsage(t.schema, role), GrantDelete(t, role)]
    + ColumnGrants(t, SelectPrivilege, command.readable, role)
    + ColumnGrants(t, InsertPrivilege, command.insertable, role)
    + ColumnGrants(t, UpdatePrivilege, command.updatable, role)
  }

  lemma ExposePlanIs(cfg: Config, command: Command)
    requires command.Expose? && Compile(cfg, command).Some?
    ensures Compile(cfg, command).value
            == [AssertExposable(command.target, cfg.runtimeRole)]
               + (ExposeGrants(cfg, command) + [MarkExposed(command.alias, command.target)])
    ensures forall g <- ExposeGrants(cfg, command) :: GrantsOn(g, command.target, cfg.runtimeRole)
  {
  }

  /** A committed expose hands out privileges to the runtime role, on the table it exposes, and no others. */
  lemma ExposeSealed(cfg: Config, command: Command, db: Db, db': Db)
    requires WellFormed(db) && Sealed(db, cfg.runtimeRole)
    requires command.Expose? && Compile(cfg, command).Some?
    requires ApplyAll(Compile(cfg, command).value, db) == Some(db')
    ensures Sealed(db', cfg.runtimeRole)
    ensures GrantsOnly(db, db', command.target, cfg.runtimeRole)
  {
    var first := AssertExposable(command.target, cfg.runtimeRole);
    var rest := ExposeGrants(cfg, command) + [MarkExposed(command.alias, command.target)];
    ExposePlanIs(cfg, command);
    assert ([first] + rest)[1..] == rest;
    assert Apply(first, db) == Some(db);
    GrantsThenMarkSealed(ExposeGrants(cfg, command), command.alias, command.target, db, cfg.runtimeRole, db');
    GrantsThenMarkOnly(ExposeGrants(cfg, command), command.alias, command.target, db, cfg.runtimeRole, db');
  }

  // ---------- unexpose ----------

  lemma MarkUnexposedSealed(db: Db, t: Target, role: string, db': Db)
    requires WellFormed(db) && Sealed(db, role)
    requires Exists(db, t) && !HoldsPrivilege(db, db.names[t], role)
    requires ApplyMarkUnexposed(db, t) == Some(db')
    ensures Sealed(db', role)
    ensures !Exposed(db', t) && Exists(db', t) && !HoldsPrivilege(db', db'.names[t], role)
  {
    forall u | Exists(db', u) && !Exposed(db', u) ensures !HoldsPrivilege(db', db'.names[u], role) {
      assert Exists(db, u);
    }
  }

  lemma RevokeSealed(db: Db, t: Target, role: string, db': Db)
    requires WellFormed(db) && Sealed(db, role)
    requires ApplyRevoke(db, t, role) == Some(db')
    ensures WellFormed(db') && Sealed(db', role)
  {
    assert db' == db.(grants := db'.grants) && db'.grants <= db.grants;
    ShrinkKeepsSealed(db, role, {}, db');
  }

  lemma UnexposeStages(t: Target, role: string, db: Db, db': Db) returns (revoked: Db)
    requires ApplyAll([Revoke(t, role), AssertRevoked(t, role), MarkUnexposed(t)], db) == Some(db')
    ensures ApplyRevoke(db, t, role) == Some(revoked)
    ensures Exists(revoked, t) && !HoldsPrivilege(revoked, revoked.names[t], role)
    ensures ApplyMarkUnexposed(revoked, t) == Some(db')
  {
    ApplyAllThree(Revoke(t, role), AssertRevoked(t, role), MarkUnexposed(t), db, db');
    revoked := ApplyRevoke(db, t, role).value;
  }

  /** A committed unexpose leaves the table in place, unexposed, and out of the role's reach. */
  lemma UnexposeSealed(cfg: Config, t: Target, db: Db, db': Db)
    requires WellFormed(db) && Sealed(db, cfg.runtimeRole)
    requires ApplyAll(UnexposePlan(cfg, t), db) == Some(db')
    ensures Sealed(db', cfg.runtimeRole)
    ensures !Exposed(db', t) && Exists(db', t) && !HoldsPrivilege(db', db'.names[t], cfg.runtimeRole)
  {
    var revoked := UnexposeStages(t, cfg.runtimeRole, db, db');
    RevokeSealed(db, t, cfg.runtimeRole, revoked);
    MarkUnexposedSealed(revoked, t, cfg.runtimeRole, db');
  }

  // ---------- all plans and all runs ----------

  lemma {:induction false} OrdinaryKeepsSealed(stmts: seq<Stmt>, db: Db, role: string, db': Db)
    requires WellFormed(db) && Safe(db) && Sealed(db, role) && AdmissibleAll(stmts, db)
    requires forall s <- stmts :: !Marks(s) && !IsGrant(s)
    requires ApplyAll(stmts, db) == Some(db')
    ensures Sealed(db', role)
  {
    if stmts != [] {
      assert !Marks(stmts[0]) && !IsGrant(stmts[0]);
      var mid := Apply(stmts[0], db).value;
      StatementKeeps(stmts[0], db, mid);
      StatementKeepsSealed(stmts[0], db, role, mid);
      OrdinaryKeepsSealed(stmts[1..], mid, role, db');
    }
  }

  lemma GuardedOrdinary(cfg: Config, command: Command)
    requires IsGuarded(command) && Compile(cfg, command).Some?
    ensures forall s <- Compile(cfg, command).value :: !Marks(s) && !IsGrant(s)
  {
    GuardedCompiles(cfg, command);
    assert !Marks(GuardedStatement(command)) && !IsGrant(GuardedStatement(command));
  }

  lemma BareOrdinary(cfg: Config, command: Command)
    requires IsBare(command) && Compile(cfg, command).Some?
    ensures forall s <- Compile(cfg, command).value :: !Marks(s) && !IsGrant(s)
  {
  }

  lemma OrdinaryPlan(cfg: Config, command: Command)
    requires !command.Expose? && !command.Unexpose? && Compile(cfg, command).Some?
    ensures forall s <- Compile(cfg, command).value :: !Marks(s) && !IsGrant(s)
  {
    if IsGuarded(command) { GuardedOrdinary(cfg, command); }
    else if IsBare(command) { BareOrdinary(cfg, command); }
  }

  lemma PlanKeepsSealed(cfg: Config, db: Db, db': Db)
    requires WellFormed(db) && Safe(db) && Sealed(db, cfg.runtimeRole)
    requires PlanStep(cfg, db, db')
    ensures Sealed(db', cfg.runtimeRole)
  {
    var command: Command :| Compile(cfg, command).Some? && ApplyAll(Compile(cfg, command).value, db) == Some(db');
    if command.Expose? {
      ExposeSealed(cfg, command, db, db');
    } else if command.Unexpose? {
      UnexposeSealed(cfg, command.target, db, db');
    } else {
      PlanAdmissible(cfg, command, db);
      OrdinaryPlan(cfg, command);
      OrdinaryKeepsSealed(Compile(cfg, command).value, db, cfg.runtimeRole, db');
    }
  }

  /**
   Over every run: whatever table is not exposed, the runtime role holds no privilege on it,
   whoever granted it.
  */
  lemma {:induction false} UnexposedTablesStaySealed(cfg: Config, init: Db, s: System, actions: seq<Action>, s': System)
    requires Inv(cfg, init, s)
    requires WellFormed(s.db) && Safe(s.db) && Sealed(s.db, cfg.runtimeRole)
    requires Run(cfg, s, actions) == Some(s')
    ensures Sealed(s'.db, cfg.runtimeRole)
    decreases |actions|
  {
    if actions != [] {
      var next := Next(cfg, s, actions[0]).value;
      StepKeepsInv(cfg, init, s, actions[0], next);
      StepKeepsExposed(cfg, init, s, actions[0], next);
      if next.db != s.db {
        PlanKeepsSealed(cfg, s.db, next.db);
      }
      UnexposedTablesStaySealed(cfg, init, next, actions[1..], s');
    }
  }
}
