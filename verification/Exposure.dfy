/**
 What the locked guards protect: tables exposed to the data API.  Everything here is
 about plans run on the state found under the lock, so no preflight answer is trusted.
*/
module Exposure {
  import opened Common
  import opened Ddl
  import opened Commands
  import opened OperationLog
  import opened Services
  import opened Executor

  /** The catalogue's own consistency: unique names, unique aliases, no dangling foreign key. */
  ghost predicate WellFormed(db: Db) {
    && (forall t <- db.names :: db.names[t] in db.tables)
    && (forall t, u | t in db.names && u in db.names && db.names[t] == db.names[u] :: t == u)
    && (forall oid <- db.tables :: oid < db.nextOid)
    && (forall k <- db.constraints :: k.0 in db.tables)
    && (forall k <- db.constraints :: db.constraints[k].ForeignKey? ==> db.constraints[k].references in db.tables)
    && (forall t, u | t in db.registry && u in db.registry && db.registry[t].alias == db.registry[u].alias :: t == u)
  }

  /** An exposed row names an existing table whose row security is enabled and forced, free of cascading keys. */
  ghost predicate Shielded(db: Db, t: Target) {
    && Exists(db, t)
    && TableAt(db, t).rowSecurity
    && TableAt(db, t).forced
    && !Cascaded(db, db.names[t])
  }

  ghost predicate Safe(db: Db) {
    forall t | Exposed(db, t) :: Shielded(db, t)
  }

  /** The public face of a row that stays exposed: same alias, same table, same columns. */
  ghost predicate Frozen(db: Db, db': Db) {
    forall t | Exposed(db, t) && Exposed(db', t) ::
      && db'.registry[t].alias == db.registry[t].alias
      && Exists(db, t) && Exists(db', t)
      && db'.names[t] == db.names[t]
      && TableAt(db', t).columns == TableAt(db, t).columns
  }

  ghost predicate Keeps(db: Db, db': Db) {
    WellFormed(db') && Safe(db') && Frozen(db, db')
  }

  /** The state a plan's guards must have established before the statement runs. */
  ghost predicate Admissible(stmt: Stmt, db: Db) {
    match stmt
    case RenameTable(t, _) => !Exposed(db, t)
    case DropTable(t) => !Exposed(db, t)
    case AddColumn(t, _) => !Exposed(db, t)
    case RenameColumn(t, _, _) => !Exposed(db, t)
    case DropColumn(t, _) => !Exposed(db, t)
    case SetDefault(t, _, _, _) => !Exposed(db, t)
    case DropDefault(t, _) => !Exposed(db, t)
    case SetNotNull(t, _) => !Exposed(db, t)
    case DropNotNull(t, _) => !Exposed(db, t)
    case AlterColumnType(t, _, _) => !Exposed(db, t)
    case NoForceRowSecurity(t) => !Exposed(db, t)
    case DisableRowSecurity(t) => !Exposed(db, t)
    case AddForeignKey(t, _, _, references, _, onUpdate, onDelete) =>
      Rewrites(onUpdate) || Rewrites(onDelete) ==> !Exposed(db, t) && !Exposed(db, references)
    case MarkExposed(_, t) => Shielded(db, t) && !Exposed(db, t)
    case _ => true
  }

  lemma NewTableKeeps(db: Db, t: Target, table: Table)
    requires WellFormed(db) && Safe(db)
    requires t !in db.names
    ensures Keeps(db, db.(names := db.names[t := db.nextOid], tables := db.tables[db.nextOid := table],
                          nextOid := db.nextOid + 1))
  {
    var db' := db.(names := db.names[t := db.nextOid], tables := db.tables[db.nextOid := table], nextOid := db.nextOid + 1);
    forall u | Exposed(db', u) ensures Shielded(db', u) {
      assert Exposed(db, u) && Shielded(db, u);
    }
  }

  lemma RenameTableKeeps(db: Db, t: Target, newName: string, db': Db)
    requires WellFormed(db) && Safe(db) && !Exposed(db, t)
    requires ApplyRenameTable(db, t, newName) == Some(db')
    ensures Keeps(db, db')
  {
    forall u | Exposed(db', u) ensures Shielded(db', u) {
      assert Shielded(db, u);
    }
  }

  lemma DropTableKeeps(db: Db, t: Target, db': Db)
    requires WellFormed(db) && Safe(db) && !Exposed(db, t)
    requires ApplyDropTable(db, t) == Some(db')
    ensures Keeps(db, db')
  {
    forall u | Exposed(db', u) ensures Shielded(db', u) {
      assert Shielded(db, u);
    }
  }

  /** Any change confined to one table that is not exposed. */
  lemma TableChangeKeeps(db: Db, t: Target, table: Table, db': Db)
    requires WellFormed(db) && Safe(db) && !Exposed(db, t) && Exists(db, t)
    requires db' == SetTable(db, t, table).(constraints := db'.constraints, indexes := db'.indexes, grants := db'.grants)
    requires forall k <- db'.constraints :: k in db.constraints && db'.constraints[k] == db.constraints[k]
    ensures Keeps(db, db')
  {
    forall u | Exposed(db', u) ensures Shielded(db', u) {
      assert Shielded(db, u);
    }
  }

  lemma RowSecurityKeeps(db: Db, t: Target, table: Table)
    requires WellFormed(db) && Safe(db) && Exists(db, t)
    requires table.columns == TableAt(db, t).columns
    requires (TableAt(db, t).rowSecurity ==> table.rowSecurity) && (TableAt(db, t).forced ==> table.forced)
    ensures Keeps(db, SetTable(db, t, table))
  {
    var db' := SetTable(db, t, table);
    forall u | Exposed(db', u) ensures Shielded(db', u) {
      assert Shielded(db, u);
    }
  }

  /** Adding or removing constraints, with no cascading key at an exposed end. */
  lemma ConstraintsKeep(db: Db, db': Db)
    requires WellFormed(db) && Safe(db)
    requires db' == db.(constraints := db'.constraints)
    requires forall k <- db'.constraints :: k.0 in db.tables
    requires forall k <- db'.constraints ::
               db'.constraints[k].ForeignKey? ==> db'.constraints[k].references in db.tables
    requires forall k <- db'.constraints | !(k in db.constraints && db'.constraints[k] == db.constraints[k]) ::
               var c := db'.constraints[k];
               c.ForeignKey? && (Rewrites(c.onUpdate) || Rewrites(c.onDelete)) ==>
                 forall u | Exposed(db, u) :: Exists(db, u) && db.names[u] != k.0 && db.names[u] != c.references
    ensures Keeps(db, db')
  {
    forall u | Exposed(db', u) ensures Shielded(db', u) {
      assert Exposed(db, u) && Shielded(db, u);
    }
  }

  lemma KeepsChain(db: Db, mid: Db, db': Db)
    requires Safe(db) && mid.registry == db.registry
    requires Keeps(db, mid) && Keeps(mid, db')
    ensures Keeps(db, db')
  {
  }

  lemma PlainConstraintKeeps(db: Db, key: (Oid, string), constraint: Constraint)
    requires WellFormed(db) && Safe(db)
    requires key.0 in db.tables && !constraint.ForeignKey?
    ensures Keeps(db, db.(constraints := db.constraints[key := constraint]))
  {
    ConstraintsKeep(db, db.(constraints := db.constraints[key := constraint]));
  }

  lemma CreateTableKeeps(db: Db, t: Target, specs: seq<ColumnSpec>, db': Db)
    requires WellFormed(db) && Safe(db)
    requires ApplyCreateTable(db, t, specs) == Some(db')
    ensures Keeps(db, db')
  {
    var table := db'.tables[db.nextOid];
    var mid := db.(names := db.names[t := db.nextOid], tables := db.tables[db.nextOid := table], nextOid := db.nextOid + 1);
    NewTableKeeps(db, t, table);
    if db' != mid {
      var key := (db.nextOid, t.table + "_pkey");
      PlainConstraintKeeps(mid, key, db'.constraints[key]);
      assert db' == mid.(constraints := mid.constraints[key := db'.constraints[key]]);
      KeepsChain(db, mid, db');
    }
  }

  lemma ForeignKeyKeeps(db: Db, t: Target, name: string, columns: seq<string>, references: Target,
                        referenced: seq<string>, onUpdate: KeyAction, onDelete: KeyAction, db': Db)
    requires WellFormed(db) && Safe(db)
    requires Rewrites(onUpdate) || Rewrites(onDelete) ==> !Exposed(db, t) && !Exposed(db, references)
    requires ApplyAddForeignKey(db, t, name, columns, references, referenced, onUpdate, onDelete) == Some(db')
    ensures Keeps(db, db')
  {
    forall u | Exposed(db, u) && (Rewrites(onUpdate) || Rewrites(onDelete))
      ensures Exists(db, u) && db.names[u] != db.names[t] && db.names[u] != db.names[references]
    {
      assert Shielded(db, u);
    }
    ConstraintsKeep(db, db');
  }

  lemma MarkExposedKeeps(db: Db, alias: string, t: Target, db': Db)
    requires WellFormed(db) && Safe(db) && Shielded(db, t) && !Exposed(db, t)
    requires ApplyMarkExposed(db, alias, t) == Some(db')
    ensures Keeps(db, db')
  {
    forall u | Exposed(db', u) ensures Shielded(db', u) {
      assert Shielded(db, u);
    }
  }

  /** Statements that leave tables, names, constraints and registry alone. */
  lemma UntouchedKeeps(db: Db, db': Db)
    requires WellFormed(db) && Safe(db)
    requires db'.names == db.names && db'.tables == db.tables && db'.constraints == db.constraints
    requires db'.nextOid == db.nextOid
    requires db'.registry.Keys == db.registry.Keys
    requires forall t <- db.registry :: db'.registry[t].alias == db.registry[t].alias
    requires forall t <- db.registry :: db'.registry[t].exposed ==> db.registry[t].exposed
    ensures Keeps(db, db')
  {
    forall u | Exposed(db', u) ensures Shielded(db', u) {
      assert Exposed(db, u) && Shielded(db, u);
    }
  }

  ghost predicate IsColumnStatement(stmt: Stmt) {
    stmt.AddColumn? || stmt.RenameColumn? || stmt.DropColumn?
  }

  lemma ColumnStatementKeeps(stmt: Stmt, db: Db, db': Db)
    requires IsColumnStatement(stmt)
    requires WellFormed(db) && Safe(db) && !Exposed(db, stmt.target)
    requires Apply(stmt, db) == Some(db')
    ensures Keeps(db, db')
  {
    TableChangeKeeps(db, stmt.target, db'.tables[db.names[stmt.target]], db');
  }

  ghost predicate IsAttribute(stmt: Stmt) {
    stmt.SetDefault? || stmt.DropDefault? || stmt.SetNotNull? || stmt.DropNotNull? || stmt.AlterColumnType?
  }

  lemma AttributeKeeps(stmt: Stmt, db: Db, db': Db)
    requires IsAttribute(stmt)
    requires WellFormed(db) && Safe(db) && !Exposed(db, stmt.target)
    requires Apply(stmt, db) == Some(db')
    ensures Keeps(db, db')
  {
    TableChangeKeeps(db, stmt.target, db'.tables[db.names[stmt.target]], db');
  }

  ghost predicate IsRowSecurity(stmt: Stmt) {
    stmt.EnableRowSecurity? || stmt.ForceRowSecurity? || stmt.NoForceRowSecurity? || stmt.DisableRowSecurity?
  }

  lemma RowSecurityStatementKeeps(stmt: Stmt, db: Db, db': Db)
    requires IsRowSecurity(stmt)
    requires WellFormed(db) && Safe(db) && Admissible(stmt, db)
    requires Apply(stmt, db) == Some(db')
    ensures Keeps(db, db')
  {
    var table := db'.tables[db.names[stmt.target]];
    if stmt.EnableRowSecurity? || stmt.ForceRowSecurity? {
      RowSecurityKeeps(db, stmt.target, table);
    } else {
      TableChangeKeeps(db, stmt.target, table, db');
    }
  }

  ghost predicate IsConstraint(stmt: Stmt) {
    stmt.AddUnique? || stmt.DropConstraint? || stmt.AddForeignKey?
  }

  lemma ConstraintStatementKeeps(stmt: Stmt, db: Db, db': Db)
    requires IsConstraint(stmt)
    requires WellFormed(db) && Safe(db) && Admissible(stmt, db)
    requires Apply(stmt, db) == Some(db')
    ensures Keeps(db, db')
  {
    match stmt
    case AddForeignKey(t, name, columns, references, referenced, onUpdate, onDelete) =>
      ForeignKeyKeeps(db, t, name, columns, references, referenced, onUpdate, onDelete, db');
    case AddUnique(_, _, _) => UniqueKeeps(stmt, db, db');
    case DropConstraint(_, _) => DropConstraintKeeps(stmt, db, db');
  }

  lemma UniqueKeeps(stmt: Stmt, db: Db, db': Db)
    requires stmt.AddUnique?
    requires WellFormed(db) && Safe(db) && Apply(stmt, db) == Some(db')
    ensures Keeps(db, db')
  {
    ConstraintsKeep(db, db');
  }

  lemma DropConstraintKeeps(stmt: Stmt, db: Db, db': Db)
    requires stmt.DropConstraint?
    requires WellFormed(db) && Safe(db) && Apply(stmt, db) == Some(db')
    ensures Keeps(db, db')
  {
    ConstraintsKeep(db, db');
  }

  ghost predicate IsAssertion(stmt: Stmt) {
    stmt.AssertColumnType? || stmt.AssertNotExposed? || stmt.AssertExposable? || stmt.AssertRevoked?
  }

  lemma AssertionKeeps(stmt: Stmt, db: Db, db': Db)
    requires IsAssertion(stmt)
    requires WellFormed(db) && Safe(db)
    requires Apply(stmt, db) == Some(db')
    ensures db' == db && Keeps(db, db')
  {
    assert db' == db;
    UntouchedKeeps(db, db);
  }

  ghost predicate IsGrant(stmt: Stmt) {
    stmt.GrantUsage? || stmt.GrantDelete? || stmt.GrantColumns? || stmt.Revoke?
  }

  lemma GrantKeeps(stmt: Stmt, db: Db, db': Db)
    requires IsGrant(stmt)
    requires WellFormed(db) && Safe(db)
    requires Apply(stmt, db) == Some(db')
    ensures Keeps(db, db')
  {
    assert db' == db.(grants := db'.grants, usage := db'.usage);
    UntouchedKeeps(db, db');
  }

  ghost predicate IsObject(stmt: Stmt) {
    stmt.CreateIndex? || stmt.DropIndex? || stmt.CreatePolicy? || stmt.DropPolicy?
  }

  lemma ObjectKeeps(stmt: Stmt, db: Db, db': Db)
    requires IsObject(stmt)
    requires WellFormed(db) && Safe(db)
    requires Apply(stmt, db) == Some(db')
    ensures Keeps(db, db')
  {
    assert db' == db.(indexes := db'.indexes, policies := db'.policies);
    UntouchedKeeps(db, db');
  }

  lemma MarkUnexposedKeeps(db: Db, t: Target, db': Db)
    requires WellFormed(db) && Safe(db)
    requires ApplyMarkUnexposed(db, t) == Some(db')
    ensures Keeps(db, db')
  {
    UntouchedKeeps(db, db');
  }

  ghost predicate IsTableStatement(stmt: Stmt) {
    stmt.CreateTable? || stmt.RenameTable? || stmt.DropTable? || stmt.MarkExposed? || stmt.MarkUnexposed?
  }

  lemma TableStatementKeeps(stmt: Stmt, db: Db, db': Db)
    requires IsTableStatement(stmt)
    requires WellFormed(db) && Safe(db) && Admissible(stmt, db)
    requires Apply(stmt, db) == Some(db')
    ensures Keeps(db, db')
  {
    match stmt
    case CreateTable(t, specs) => CreateTableKeeps(db, t, specs, db');
    case RenameTable(t, newName) => RenameTableKeeps(db, t, newName, db');
    case DropTable(t) => DropTableKeeps(db, t, db');
    case MarkExposed(alias, t) => MarkExposedKeeps(db, alias, t, db');
    case MarkUnexposed(t) => MarkUnexposedKeeps(db, t, db');
  }

  /** One statement, run where its guards hold, keeps every exposed table as it was. */
  lemma StatementKeeps(stmt: Stmt, db: Db, db': Db)
    requires WellFormed(db) && Safe(db) && Admissible(stmt, db)
    requires Apply(stmt, db) == Some(db')
    ensures Keeps(db, db')
  {
    if IsAssertion(stmt) { AssertionKeeps(stmt, db, db'); }
    else if IsGrant(stmt) { GrantKeeps(stmt, db, db'); }
    else if IsObject(stmt) { ObjectKeeps(stmt, db, db'); }
    else if IsColumnStatement(stmt) { ColumnStatementKeeps(stmt, db, db'); }
    else if IsAttribute(stmt) { AttributeKeeps(stmt, db, db'); }
    else if IsRowSecurity(stmt) { RowSecurityStatementKeeps(stmt, db, db'); }
    else if IsConstraint(stmt) { ConstraintStatementKeeps(stmt, db, db'); }
    else { TableStatementKeeps(stmt, db, db'); }
  }

  // ---------- whole plans ----------

  /** Commands compiled to one unguarded statement. */
  predicate IsBare(command: Command) {
    command.TableCreate? || command.IndexCreate? || command.IndexDrop? || command.UniqueAdd?
    || command.ConstraintDrop? || command.PolicyCreate? || command.PolicyRemove?
  }

  /** Commands compiled to a locked exposure guard and one statement. */
  predicate IsGuarded(command: Command) {
    command.TableRename? || command.TableDrop? || command.ColumnAdd? || command.ColumnRename? || command.ColumnDrop?
    || command.DefaultSet? || command.DefaultDrop? || command.NotNullSet? || command.NotNullDrop?
  }

  function GuardedStatement(command: Command): (stmt: Stmt)
    requires IsGuarded(command)
    ensures IsColumnStatement(stmt) || IsAttribute(stmt) || stmt.RenameTable? || stmt.DropTable?
    ensures stmt.target == command.target
  {
    match command
    case TableRename(t, newName) => RenameTable(t, newName)
    case TableDrop(t) => DropTable(t)
    case ColumnAdd(t, spec) => AddColumn(t, spec)
    case ColumnRename(t, c, newName) => RenameColumn(t, c, newName)
    case ColumnDrop(t, c) => DropColumn(t, c)
    case DefaultSet(t, c, default, typ) => SetDefault(t, c, typ, default)
    case DefaultDrop(t, c) => DropDefault(t, c)
    case NotNullSet(t, c) => SetNotNull(t, c)
    case NotNullDrop(t, c) => DropNotNull(t, c)
  }

  lemma GuardedCompiles(cfg: Config, command: Command)
    requires IsGuarded(command) && Compile(cfg, command).Some?
    ensures Compile(cfg, command).value == Guarded(command.target, GuardedStatement(command))
  {
  }

  ghost predicate Marks(stmt: Stmt) {
    stmt.MarkExposed? || stmt.MarkUnexposed?
  }

  /** Each statement is admissible where it runs, and only the last touches the registry. */
  ghost predicate AdmissibleAll(stmts: seq<Stmt>, db: Db) {
    stmts == [] ||
    (&& Admissible(stmts[0], db)
     && (|stmts| > 1 ==> !Marks(stmts[0]))
     && (Apply(stmts[0], db).Some? ==> AdmissibleAll(stmts[1..], Apply(stmts[0], db).value)))
  }

  lemma ShapeKeepsRegistry(stmt: Stmt, db: Db, db': Db)
    requires IsColumnStatement(stmt) || IsRowSecurity(stmt)
    requires Apply(stmt, db) == Some(db')
    ensures db'.registry == db.registry
  {
  }

  lemma AttributeKeepsRegistry(stmt: Stmt, db: Db, db': Db)
    requires IsAttribute(stmt)
    requires Apply(stmt, db) == Some(db')
    ensures db'.registry == db.registry
  {
  }

  lemma ObjectKeepsRegistry(stmt: Stmt, db: Db, db': Db)
    requires IsConstraint(stmt) || IsObject(stmt)
    requires Apply(stmt, db) == Some(db')
    ensures db'.registry == db.registry
  {
  }

  lemma GrantKeepsRegistry(stmt: Stmt, db: Db, db': Db)
    requires IsAssertion(stmt) || IsGrant(stmt)
    requires Apply(stmt, db) == Some(db')
    ensures db'.registry == db.registry
  {
  }

  lemma TableKeepsRegistry(stmt: Stmt, db: Db, db': Db)
    requires stmt.CreateTable? || stmt.RenameTable? || stmt.DropTable?
    requires Apply(stmt, db) == Some(db')
    ensures db'.registry == db.registry
  {
  }

  lemma RegistryKept(stmt: Stmt, db: Db, db': Db)
    requires !Marks(stmt)
    requires Apply(stmt, db) == Some(db')
    ensures db'.registry == db.registry
  {
    if IsColumnStatement(stmt) || IsRowSecurity(stmt) { ShapeKeepsRegistry(stmt, db, db'); }
    else if IsAttribute(stmt) { AttributeKeepsRegistry(stmt, db, db'); }
    else if IsConstraint(stmt) || IsObject(stmt) { ObjectKeepsRegistry(stmt, db, db'); }
    else if IsAssertion(stmt) || IsGrant(stmt) { GrantKeepsRegistry(stmt, db, db'); }
    else { TableKeepsRegistry(stmt, db, db'); }
  }

  lemma {:induction false} AdmissibleAllKeeps(stmts: seq<Stmt>, db: Db, db': Db)
    requires WellFormed(db) && Safe(db) && AdmissibleAll(stmts, db)
    requires ApplyAll(stmts, db) == Some(db')
    ensures Keeps(db, db')
  {
    if stmts != [] {
      var mid := Apply(stmts[0], db).value;
      StatementKeeps(stmts[0], db, mid);
      if |stmts| > 1 {
        RegistryKept(stmts[0], db, mid);
        AdmissibleAllKeeps(stmts[1..], mid, db');
        KeepsChain(db, mid, db');
      } else {
        assert ApplyAll(stmts[1..], mid) == Some(mid);
      }
    }
  }

  lemma NoNewCascade(db: Db, db': Db)
    requires db'.constraints == db.constraints
    ensures forall oid: Oid :: Cascaded(db', oid) <==> Cascaded(db, oid)
  {
  }

  lemma GrantFrame(stmt: Stmt, db: Db, db': Db, t: Target)
    requires IsGrant(stmt) && Apply(stmt, db) == Some(db')
    requires Shielded(db, t) && !Exposed(db, t)
    ensures Shielded(db', t) && !Exposed(db', t)
  {
    assert db' == db.(grants := db'.grants, usage := db'.usage);
    NoNewCascade(db, db');
  }

  lemma GrantAdmissible(stmt: Stmt, db: Db)
    requires IsGrant(stmt)
    ensures Admissible(stmt, db) && !Marks(stmt)
  {
  }

  lemma {:induction false} GrantsThenMark(grants: seq<Stmt>, alias: string, t: Target, db: Db)
    requires forall g <- grants :: IsGrant(g)
    requires Shielded(db, t) && !Exposed(db, t)
    ensures AdmissibleAll(grants + [MarkExposed(alias, t)], db)
  {
    var all := grants + [MarkExposed(alias, t)];
    if grants == [] {
      assert all == [MarkExposed(alias, t)];
      assert all[1..] == [];
    } else {
      assert all[0] == grants[0];
      GrantAdmissible(grants[0], db);
      assert all[1..] == grants[1..] + [MarkExposed(alias, t)];
      if Apply(grants[0], db).Some? {
        GrantFrame(grants[0], db, Apply(grants[0], db).value, t);
        GrantsThenMark(grants[1..], alias, t, Apply(grants[0], db).value);
      }
    }
  }

  /** `[guard, s]` is admissible when the guard establishes what `s` needs. */
  lemma PairAdmissible(first: Stmt, second: Stmt, db: Db)
    requires Admissible(first, db) && !Marks(first)
    requires Apply(first, db).Some? ==> Admissible(second, Apply(first, db).value)
    ensures AdmissibleAll([first, second], db)
  {
    assert [first, second][1..] == [second];
    assert [second][1..] == [];
  }

  lemma TripleAdmissible(first: Stmt, second: Stmt, third: Stmt, db: Db)
    requires Admissible(first, db) && !Marks(first) && !Marks(second)
    requires Apply(first, db).Some? ==> Admissible(second, Apply(first, db).value)
    requires Apply(first, db).Some? && Apply(second, Apply(first, db).value).Some? ==>
               Admissible(third, Apply(second, Apply(first, db).value).value)
    ensures AdmissibleAll([first, second, third], db)
  {
    assert [first, second, third][1..] == [second, third];
    if Apply(first, db).Some? {
      PairAdmissible(second, third, Apply(first, db).value);
    }
  }

  lemma SingleAdmissible(stmt: Stmt, db: Db)
    requires Admissible(stmt, db)
    ensures AdmissibleAll([stmt], db)
  {
    assert [stmt][1..] == [];
  }

  lemma ExposeAdmissible(cfg: Config, command: Command, db: Db)
    requires command.Expose?
    ensures AdmissibleAll(ExposePlan(cfg, command.target, command.alias, command.readable, command.insertable,
                                     command.updatable), db)
  {
    var t, role := command.target, cfg.runtimeRole;
    var plan := ExposePlan(cfg, t, command.alias, command.readable, command.insertable, command.updatable);
    var grants := [GrantUsage(t.schema, role), GrantDelete(t, role)]
      + ColumnGrants(t, SelectPrivilege, command.readable, role)
      + ColumnGrants(t, InsertPrivilege, command.insertable, role)
      + ColumnGrants(t, UpdatePrivilege, command.updatable, role);
    assert plan[1..] == grants + [MarkExposed(command.alias, t)];
    if Apply(plan[0], db).Some? {
      GrantsThenMark(grants, command.alias, t, db);
    }
  }

  lemma ForeignKeyAdmissible(cfg: Config, command: Command, db: Db)
    requires command.ForeignKeyAdd? && Compile(cfg, command).Some?
    ensures AdmissibleAll(Compile(cfg, command).value, db)
  {
    var plan := Compile(cfg, command).value;
    if Rewrites(command.onUpdate) || Rewrites(command.onDelete) {
      assert plan == [plan[0], plan[1], plan[2]];
      TripleAdmissible(plan[0], plan[1], plan[2], db);
    } else {
      assert plan == [plan[0]];
      SingleAdmissible(plan[0], db);
    }
  }

  /** Every plan the compiler emits carries the guards its statements need. */
  lemma BarePlanAdmissible(cfg: Config, command: Command, db: Db)
    requires IsBare(command) && Compile(cfg, command).Some?
    ensures AdmissibleAll(Compile(cfg, command).value, db)
  {
    var plan := Compile(cfg, command).value;
    assert plan == [plan[0]] && Admissible(plan[0], db);
    SingleAdmissible(plan[0], db);
  }

  lemma GuardedPlanAdmissible(t: Target, stmt: Stmt, db: Db)
    requires IsColumnStatement(stmt) || IsAttribute(stmt) || stmt.RenameTable? || stmt.DropTable?
    requires stmt.target == t
    ensures AdmissibleAll(Guarded(t, stmt), db)
  {
    PairAdmissible(AssertNotExposed(t), stmt, db);
  }

  lemma RowSecurityPlanAdmissible(t: Target, db: Db)
    ensures AdmissibleAll([EnableRowSecurity(t), ForceRowSecurity(t)], db)
    ensures AdmissibleAll([AssertNotExposed(t), NoForceRowSecurity(t), DisableRowSecurity(t)], db)
  {
    PairAdmissible(EnableRowSecurity(t), ForceRowSecurity(t), db);
    TripleAdmissible(AssertNotExposed(t), NoForceRowSecurity(t), DisableRowSecurity(t), db);
  }

  lemma TypeChangeAdmissible(t: Target, column: string, from: ColumnType, to: ColumnType, db: Db)
    ensures AdmissibleAll([AssertNotExposed(t), AssertColumnType(t, column, from), AlterColumnType(t, column, to)], db)
  {
    TripleAdmissible(AssertNotExposed(t), AssertColumnType(t, column, from), AlterColumnType(t, column, to), db);
  }

  lemma UnexposeAdmissible(cfg: Config, t: Target, db: Db)
    ensures AdmissibleAll(UnexposePlan(cfg, t), db)
  {
    TripleAdmissible(Revoke(t, cfg.runtimeRole), AssertRevoked(t, cfg.runtimeRole), MarkUnexposed(t), db);
  }

  lemma PlanAdmissible(cfg: Config, command: Command, db: Db)
    requires Compile(cfg, command).Some?
    ensures AdmissibleAll(Compile(cfg, command).value, db)
  {
    if IsBare(command) {
      BarePlanAdmissible(cfg, command, db);
    } else if IsGuarded(command) {
      GuardedPlanAdmissible(command.target, GuardedStatement(command), db);
      GuardedCompiles(cfg, command);
    } else {
      match command
      case Expose(_, _, _, _, _) => ExposeAdmissible(cfg, command, db);
      case ForeignKeyAdd(_, _, _, _, _, _, _) => ForeignKeyAdmissible(cfg, command, db);
      case TypeChange(t, c, from, to) => TypeChangeAdmissible(t, c, from, to, db);
      case Unexpose(t) => UnexposeAdmissible(cfg, t, db);
      case RlsEnable(t) => RowSecurityPlanAdmissible(t, db);
      case RlsDisable(t) => RowSecurityPlanAdmissible(t, db);
    }
  }

  /** A committed plan keeps every exposed table shielded and its public face frozen. */
  lemma PlanKeeps(cfg: Config, db: Db, db': Db)
    requires WellFormed(db) && Safe(db)
    requires PlanStep(cfg, db, db')
    ensures Keeps(db, db')
  {
    var command: Command :| Compile(cfg, command).Some? && ApplyAll(Compile(cfg, command).value, db) == Some(db');
    PlanAdmissible(cfg, command, db);
    AdmissibleAllKeeps(Compile(cfg, command).value, db, db');
  }

  /** One action of the protocol, taken from any reachable state with any preflight answer. */
  lemma StepKeepsExposed(cfg: Config, init: Db, s: System, a: Action, s': System)
    requires Inv(cfg, init, s)
    requires WellFormed(s.db) && Safe(s.db)
    requires Next(cfg, s, a) == Some(s')
    ensures Keeps(s.db, s'.db)
  {
    StepKeepsInv(cfg, init, s, a, s');
    if s'.db != s.db {
      PlanKeeps(cfg, s.db, s'.db);
    }
  }

  lemma {:induction false} RunKeepsExposed(cfg: Config, init: Db, s: System, actions: seq<Action>, s': System)
    requires Inv(cfg, init, s)
    requires WellFormed(s.db) && Safe(s.db)
    requires Run(cfg, s, actions) == Some(s')
    ensures WellFormed(s'.db) && Safe(s'.db)
    decreases |actions|
  {
    if actions != [] {
      var next := Next(cfg, s, actions[0]).value;
      StepKeepsInv(cfg, init, s, actions[0], next);
      StepKeepsExposed(cfg, init, s, actions[0], next);
      RunKeepsExposed(cfg, init, next, actions[1..], s');
    }
  }

  /**
   Over every run with any stale preflight answers: an exposed row names an existing table
   with row security enabled and forced and no cascading foreign key at either end, and a
   further step never changes the table, the columns or the alias of a row that stays exposed.
  */
  lemma ExposedTablesStaySafe(cfg: Config, init: Db, actions: seq<Action>, s: System, a: Action, s': System)
    requires WellFormed(init) && Safe(init)
    requires Run(cfg, Start(init), actions) == Some(s)
    requires Next(cfg, s, a) == Some(s')
    ensures Safe(s.db) && Safe(s'.db)
    ensures Frozen(s.db, s'.db)
  {
    RunKeepsInv(cfg, init, Start(init), actions, s);
    RunKeepsExposed(cfg, init, Start(init), actions, s);
    StepKeepsExposed(cfg, init, s, a, s');
  }
}
