/**
 The frozen conversion matrix under races: a column is identified by its table's oid and
 its attnum, which renames do not change and which are never handed out twice.
*/
module ColumnTypes {
  import opened Common
  import opened Ddl
  import opened Commands
  import opened OperationLog
  import opened Services
  import opened Executor
  import opened Exposure

  ghost predicate Numbered(table: Table) {
    && (forall c <- table.columns :: table.columns[c].attnum < table.nextAttnum)
    && (forall c, d | c in table.columns && d in table.columns && table.columns[c].attnum == table.columns[d].attnum
          :: c == d)
  }

  ghost predicate ColumnsOk(db: Db) {
    forall oid <- db.tables :: oid < db.nextOid && Numbered(db.tables[oid])
  }

  ghost function TypeIn(table: Table, attnum: nat): Option<ColumnType> {
    if exists c <- table.columns :: table.columns[c].attnum == attnum then
      var c :| c in table.columns && table.columns[c].attnum == attnum;
      Some(table.columns[c].typ)
    else None
  }

  ghost function TypeOf(db: Db, oid: Oid, attnum: nat): Option<ColumnType> {
    if oid in db.tables then TypeIn(db.tables[oid], attnum) else None
  }

  lemma TypeInColumn(table: Table, column: string)
    requires Numbered(table) && column in table.columns
    ensures TypeIn(table, table.columns[column].attnum) == Some(table.columns[column].typ)
  {
  }

  /** A column present before and after has its old type or a matrix successor of it. */
  ghost predicate Advances(db: Db, db': Db) {
    forall oid: Oid, attnum: nat | TypeOf(db, oid, attnum).Some? && TypeOf(db', oid, attnum).Some? ::
      Advance(TypeOf(db, oid, attnum).value, TypeOf(db', oid, attnum).value)
  }

  predicate Advance(from: ColumnType, to: ColumnType) {
    from == to || SafeConversion(from, to)
  }

  ghost predicate SameTypes(db: Db, db': Db) {
    forall oid: Oid, attnum: nat :: TypeOf(db', oid, attnum) == TypeOf(db, oid, attnum)
  }

  lemma NewColumnsNumbered(specs: seq<ColumnSpec>)
    ensures forall c <- NewColumns(specs) :: 1 <= NewColumns(specs)[c].attnum <= |specs|
    ensures Numbered(Table(NewColumns(specs), |specs| + 1, false, false))
  {
    if specs != [] {
      NewColumnsNumbered(specs[..|specs| - 1]);
    }
  }

  /** The statements that can add, drop or retype a column, or add or drop a table. */
  ghost predicate Reshapes(stmt: Stmt) {
    stmt.CreateTable? || stmt.DropTable? || stmt.AddColumn? || stmt.DropColumn? || stmt.AlterColumnType?
  }

  lemma TableReplaced(db: Db, t: Target, table: Table, db': Db)
    requires ColumnsOk(db) && Exists(db, t) && Numbered(table)
    requires db'.tables == db.tables[db.names[t] := table] && db'.nextOid == db.nextOid
    requires forall attnum: nat :: TypeIn(table, attnum) == TypeIn(TableAt(db, t), attnum)
    ensures ColumnsOk(db') && SameTypes(db, db')
  {
  }

  lemma RenamedTypes(table: Table, column: string, newName: string, renamed: Table)
    requires Numbered(table) && column in table.columns && newName !in table.columns
    requires renamed == table.(columns := (table.columns - {column})[newName := table.columns[column]])
    ensures Numbered(renamed)
    ensures forall attnum: nat :: TypeIn(renamed, attnum) == TypeIn(table, attnum)
  {
    forall attnum: nat ensures TypeIn(renamed, attnum) == TypeIn(table, attnum) {
      if c :| c in table.columns && table.columns[c].attnum == attnum {
        TypeInColumn(table, c);
        TypeInColumn(renamed, if c == column then newName else c);
      } else {
        assert forall c <- renamed.columns :: renamed.columns[c].attnum != attnum by {
          forall c <- renamed.columns ensures renamed.columns[c].attnum != attnum {
            assert c == newName || (c in table.columns && renamed.columns[c] == table.columns[c]);
            assert table.columns[column].attnum != attnum;
          }
        }
      }
    }
  }

  /** Replacing a column by one of the same number and type. */
  lemma RestyledTypes(table: Table, column: string, value: Column, restyled: Table)
    requires Numbered(table) && column in table.columns
    requires value.attnum == table.columns[column].attnum && value.typ == table.columns[column].typ
    requires restyled == table.(columns := table.columns[column := value])
    ensures Numbered(restyled)
    ensures forall attnum: nat :: TypeIn(restyled, attnum) == TypeIn(table, attnum)
  {
    forall attnum: nat ensures TypeIn(restyled, attnum) == TypeIn(table, attnum) {
      if c :| c in table.columns && table.columns[c].attnum == attnum {
        TypeInColumn(table, c);
        TypeInColumn(restyled, c);
      } else {
        assert forall c <- restyled.columns :: restyled.columns[c].attnum == table.columns[c].attnum;
      }
    }
  }

  lemma AttributeSameTypes(stmt: Stmt, db: Db, db': Db)
    requires IsAttribute(stmt) && !stmt.AlterColumnType?
    requires ColumnsOk(db) && Apply(stmt, db) == Some(db')
    ensures ColumnsOk(db') && SameTypes(db, db')
  {
    var table, restyled := TableAt(db, stmt.target), db'.tables[db.names[stmt.target]];
    RestyledTypes(table, stmt.column, restyled.columns[stmt.column], restyled);
    TableReplaced(db, stmt.target, restyled, db');
  }

  lemma RowSecuritySameTypes(stmt: Stmt, db: Db, db': Db)
    requires IsRowSecurity(stmt)
    requires ColumnsOk(db) && Apply(stmt, db) == Some(db')
    ensures ColumnsOk(db') && SameTypes(db, db')
  {
    var table, secured := TableAt(db, stmt.target), db'.tables[db.names[stmt.target]];
    assert secured.columns == table.columns && secured.nextAttnum == table.nextAttnum;
    assert Numbered(secured);
    forall attnum: nat ensures TypeIn(secured, attnum) == TypeIn(table, attnum) {
      if c :| c in table.columns && table.columns[c].attnum == attnum {
        TypeInColumn(table, c);
        TypeInColumn(secured, c);
      }
    }
    TableReplaced(db, stmt.target, secured, db');
  }

  lemma RenameColumnSameTypes(t: Target, column: string, newName: string, db: Db, db': Db)
    requires ColumnsOk(db) && ApplyRenameColumn(db, t, column, newName) == Some(db')
    ensures ColumnsOk(db') && SameTypes(db, db')
  {
    var renamed := db'.tables[db.names[t]];
    RenamedTypes(TableAt(db, t), column, newName, renamed);
    TableReplaced(db, t, renamed, db');
  }

  lemma TablesUntouched(stmt: Stmt, db: Db, db': Db)
    requires !IsAttribute(stmt) && !IsRowSecurity(stmt) && !stmt.RenameColumn? && !Reshapes(stmt)
    requires Apply(stmt, db) == Some(db')
    ensures db'.tables == db.tables && db'.nextOid == db.nextOid
  {
  }

  lemma StatementSameTypes(stmt: Stmt, db: Db, db': Db)
    requires !Reshapes(stmt)
    requires ColumnsOk(db) && Apply(stmt, db) == Some(db')
    ensures ColumnsOk(db') && SameTypes(db, db')
  {
    if IsAttribute(stmt) { AttributeSameTypes(stmt, db, db'); }
    else if IsRowSecurity(stmt) { RowSecuritySameTypes(stmt, db, db'); }
    else if stmt.RenameColumn? { RenameColumnSameTypes(stmt.target, stmt.column, stmt.newName, db, db'); }
    else { TablesUntouched(stmt, db, db'); }
  }

  lemma {:induction false} ListSameTypes(stmts: seq<Stmt>, db: Db, db': Db)
    requires forall s <- stmts :: !Reshapes(s)
    requires ColumnsOk(db) && ApplyAll(stmts, db) == Some(db')
    ensures ColumnsOk(db') && SameTypes(db, db')
  {
    if stmts != [] {
      assert !Reshapes(stmts[0]);
      var mid := Apply(stmts[0], db).value;
      StatementSameTypes(stmts[0], db, mid);
      ListSameTypes(stmts[1..], mid, db');
    }
  }

  /** Every column of `db'` is an old one with its old type, or carries a number never used before. */
  ghost predicate OldOrNew(table: Table, table': Table) {
    forall c <- table'.columns ::
      (c in table.columns && table.columns[c].attnum == table'.columns[c].attnum
       && Advance(table.columns[c].typ, table'.columns[c].typ))
      || table.nextAttnum <= table'.columns[c].attnum
  }

  lemma TableAdvances(table: Table, table': Table, attnum: nat)
    requires Numbered(table) && Numbered(table') && OldOrNew(table, table')
    requires TypeIn(table, attnum).Some? && TypeIn(table', attnum).Some?
    ensures Advance(TypeIn(table, attnum).value, TypeIn(table', attnum).value)
  {
    var c :| c in table'.columns && table'.columns[c].attnum == attnum;
    TypeInColumn(table', c);
    var d :| d in table.columns && table.columns[d].attnum == attnum;
    TypeInColumn(table, c);
  }

  lemma OneTableAdvances(db: Db, oid: Oid, table: Table, db': Db)
    requires ColumnsOk(db) && oid in db.tables
    requires db'.tables == db.tables[oid := table] && db'.nextOid == db.nextOid
    requires Numbered(table) && OldOrNew(db.tables[oid], table)
    ensures ColumnsOk(db') && Advances(db, db')
  {
    forall o: Oid, attnum: nat | TypeOf(db, o, attnum).Some? && TypeOf(db', o, attnum).Some?
      ensures Advance(TypeOf(db, o, attnum).value, TypeOf(db', o, attnum).value)
    {
      if o == oid {
        TableAdvances(db.tables[oid], table, attnum);
      }
    }
  }

  lemma CreateAdvances(t: Target, specs: seq<ColumnSpec>, db: Db, db': Db)
    requires ColumnsOk(db) && ApplyCreateTable(db, t, specs) == Some(db')
    ensures ColumnsOk(db') && Advances(db, db')
  {
    NewColumnsNumbered(specs);
    assert db'.tables == db.tables[db.nextOid := Table(NewColumns(specs), |specs| + 1, false, false)];
  }

  /** Dropping, creating and adding never give an old column a new type; a retyping follows `from` to `to`. */
  lemma ReshapeAdvances(stmt: Stmt, db: Db, db': Db)
    requires Reshapes(stmt)
    requires stmt.AlterColumnType? && HasColumn(db, stmt.target, stmt.column) ==>
               Advance(TableAt(db, stmt.target).columns[stmt.column].typ, stmt.typ)
    requires ColumnsOk(db) && Apply(stmt, db) == Some(db')
    ensures ColumnsOk(db') && Advances(db, db')
  {
    match stmt
    case CreateTable(t, specs) => CreateAdvances(t, specs, db, db');
    case DropTable(t) =>
    case AddColumn(t, _) => OneTableAdvances(db, db.names[t], db'.tables[db.names[t]], db');
    case DropColumn(t, _) => OneTableAdvances(db, db.names[t], db'.tables[db.names[t]], db');
    case AlterColumnType(t, _, _) => OneTableAdvances(db, db.names[t], db'.tables[db.names[t]], db');
  }

  lemma TypeChangeAdvances(t: Target, column: string, from: ColumnType, to: ColumnType, db: Db, db': Db)
    requires SafeConversion(from, to)
    requires ColumnsOk(db)
    requires ApplyAll([AssertNotExposed(t), AssertColumnType(t, column, from), AlterColumnType(t, column, to)], db) == Some(db')
    ensures ColumnsOk(db') && Advances(db, db')
    ensures HasColumn(db, t, column) && TableAt(db, t).columns[column].typ == from
  {
    ApplyAllThree(AssertNotExposed(t), AssertColumnType(t, column, from), AlterColumnType(t, column, to), db, db');
    ReshapeAdvances(AlterColumnType(t, column, to), db, db');
  }

  lemma GuardedReshape(t: Target, stmt: Stmt, db: Db, db': Db)
    requires Reshapes(stmt) && !stmt.AlterColumnType?
    requires ColumnsOk(db) && ApplyAll([AssertNotExposed(t), stmt], db) == Some(db')
    ensures ColumnsOk(db') && Advances(db, db')
  {
    assert [AssertNotExposed(t), stmt] == [AssertNotExposed(t)] + [stmt];
    ApplyAllAppend([AssertNotExposed(t)], stmt, db);
    ApplyAllAppend([], AssertNotExposed(t), db);
    assert [] + [AssertNotExposed(t)] == [AssertNotExposed(t)];
    ReshapeAdvances(stmt, db, db');
  }

  ghost predicate MayReshape(command: Command) {
    command.TableCreate? || command.TableDrop? || command.ColumnAdd? || command.ColumnDrop? || command.TypeChange?
  }

  lemma GuardedPlan(cfg: Config, command: Command)
    requires IsGuarded(command) && !MayReshape(command) && Compile(cfg, command).Some?
    ensures forall s <- Compile(cfg, command).value :: !Reshapes(s)
  {
    GuardedCompiles(cfg, command);
    assert !Reshapes(GuardedStatement(command));
  }

  lemma BarePlan(cfg: Config, command: Command)
    requires IsBare(command) && !MayReshape(command) && Compile(cfg, command).Some?
    ensures forall s <- Compile(cfg, command).value :: !Reshapes(s)
  {
  }

  lemma OtherPlan(cfg: Config, command: Command)
    requires Compile(cfg, command).Some? && !MayReshape(command)
    ensures forall s <- Compile(cfg, command).value :: !Reshapes(s)
  {
    if IsGuarded(command) { GuardedPlan(cfg, command); }
    else if IsBare(command) { BarePlan(cfg, command); }
  }

  lemma CreatePlanAdvances(t: Target, columns: seq<ColumnSpec>, db: Db, db': Db)
    requires ColumnsOk(db) && ApplyAll([CreateTable(t, [ID_COLUMN] + columns)], db) == Some(db')
    ensures ColumnsOk(db') && Advances(db, db')
  {
    var stmt := CreateTable(t, [ID_COLUMN] + columns);
    assert [stmt] == [] + [stmt];
    ApplyAllAppend([], stmt, db);
    ReshapeAdvances(stmt, db, db');
  }

  lemma CommandAdvances(cfg: Config, command: Command, db: Db, db': Db)
    requires ColumnsOk(db) && Compile(cfg, command).Some? && MayReshape(command)
    requires ApplyAll(Compile(cfg, command).value, db) == Some(db')
    ensures ColumnsOk(db') && Advances(db, db')
  {
    match command
    case TableCreate(t, columns) => CreatePlanAdvances(t, columns, db, db');
    case TableDrop(t) => GuardedReshape(t, DropTable(t), db, db');
    case ColumnAdd(t, spec) => GuardedReshape(t, AddColumn(t, spec), db, db');
    case ColumnDrop(t, c) => GuardedReshape(t, DropColumn(t, c), db, db');
    case TypeChange(t, c, from, to) => TypeChangeAdvances(t, c, from, to, db, db');
  }

  lemma PlanAdvances(cfg: Config, db: Db, db': Db)
    requires ColumnsOk(db) && PlanStep(cfg, db, db')
    ensures ColumnsOk(db') && Advances(db, db')
  {
    var command: Command :| Compile(cfg, command).Some? && ApplyAll(Compile(cfg, command).value, db) == Some(db');
    if MayReshape(command) {
      CommandAdvances(cfg, command, db, db');
    } else {
      OtherPlan(cfg, command);
      ListSameTypes(Compile(cfg, command).value, db, db');
    }
  }

  // ---------- a column's life ----------

  /** Position of a type on its widening chain. */
  function Rank(typ: ColumnType): (r: nat)
    ensures r <= 2
  {
    match typ
    case Bigint => 1
    case Numeric => 2
    case Timestamp => 1
    case _ => 0
  }

  /** The published databases of a run, first to last. */
  function Trace(cfg: Config, s: System, actions: seq<Action>): (trace: seq<Db>)
    requires Run(cfg, s, actions).Some?
    ensures |trace| == |actions| + 1 && trace[0] == s.db
    ensures trace[|actions|] == Run(cfg, s, actions).value.db
    decreases |actions|
  {
    if actions == [] then [s.db]
    else [s.db] + Trace(cfg, Next(cfg, s, actions[0]).value, actions[1..])
  }

  ghost predicate Alive(trace: seq<Db>, oid: Oid, attnum: nat) {
    forall db <- trace :: TypeOf(db, oid, attnum).Some?
  }

  /** How often the column's type differs between neighbouring states. */
  ghost function Changes(trace: seq<Db>, oid: Oid, attnum: nat): nat {
    if |trace| < 2 then 0
    else (if TypeOf(trace[0], oid, attnum) == TypeOf(trace[1], oid, attnum) then 0 else 1)
         + Changes(trace[1..], oid, attnum)
  }

  /** One action: the matrix is applied to the actual type, even after a stale preflight. */
  lemma StepAdvances(cfg: Config, init: Db, s: System, a: Action, s': System)
    requires Inv(cfg, init, s) && ColumnsOk(s.db)
    requires Next(cfg, s, a) == Some(s')
    ensures ColumnsOk(s'.db) && Advances(s.db, s'.db)
  {
    StepKeepsInv(cfg, init, s, a, s');
    if s'.db != s.db {
      PlanAdvances(cfg, s.db, s'.db);
    }
  }

  lemma TraceStep(cfg: Config, s: System, actions: seq<Action>)
    requires actions != [] && Run(cfg, s, actions).Some?
    ensures Next(cfg, s, actions[0]).Some? && Run(cfg, Next(cfg, s, actions[0]).value, actions[1..]).Some?
    ensures Trace(cfg, s, actions) == [s.db] + Trace(cfg, Next(cfg, s, actions[0]).value, actions[1..])
  {
  }

  /** Prepending a state adds at most the rank its step climbs. */
  lemma ChangesStep(db: Db, rest: seq<Db>, oid: Oid, attnum: nat)
    requires rest != [] && Advances(db, rest[0])
    requires TypeOf(db, oid, attnum).Some? && TypeOf(rest[0], oid, attnum).Some?
    ensures Changes([db] + rest, oid, attnum) + Rank(TypeOf(db, oid, attnum).value)
            <= Changes(rest, oid, attnum) + Rank(TypeOf(rest[0], oid, attnum).value)
  {
    assert ([db] + rest)[1..] == rest;
  }

  lemma {:induction false} LifeAscends(cfg: Config, init: Db, s: System, actions: seq<Action>, s': System,
                                       oid: Oid, attnum: nat)
    requires Inv(cfg, init, s) && ColumnsOk(s.db)
    requires Run(cfg, s, actions) == Some(s')
    requires Alive(Trace(cfg, s, actions), oid, attnum)
    ensures TypeOf(s.db, oid, attnum).Some? && TypeOf(s'.db, oid, attnum).Some?
    ensures Rank(TypeOf(s.db, oid, attnum).value) + Changes(Trace(cfg, s, actions), oid, attnum)
         <= Rank(TypeOf(s'.db, oid, attnum).value)
    decreases |actions|
  {
    var trace := Trace(cfg, s, actions);
    assert s.db in trace && trace[|actions|] in trace;
    if actions != [] {
      TraceStep(cfg, s, actions);
      var next := Next(cfg, s, actions[0]).value;
      var rest := Trace(cfg, next, actions[1..]);
      assert forall db <- rest :: db in trace;
      StepKeepsInv(cfg, init, s, actions[0], next);
      StepAdvances(cfg, init, s, actions[0], next);
      LifeAscends(cfg, init, next, actions[1..], s', oid, attnum);
      ChangesStep(s.db, rest, oid, attnum);
    }
  }

  /**
   However the preflights race, a column that stays in place changes type at most twice, each
   time by a matrix pair from the type it then had, so its type only climbs its chain.
  */
  lemma AtMostTwoTypeChanges(cfg: Config, init: Db, s: System, actions: seq<Action>, oid: Oid, attnum: nat)
    requires Inv(cfg, init, s) && ColumnsOk(s.db)
    requires Run(cfg, s, actions).Some?
    requires Alive(Trace(cfg, s, actions), oid, attnum)
    ensures Changes(Trace(cfg, s, actions), oid, attnum) <= 2
  {
    LifeAscends(cfg, init, s, actions, Run(cfg, s, actions).value, oid, attnum);
  }
}
