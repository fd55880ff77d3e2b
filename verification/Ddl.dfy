/**
 The part of a PostgreSQL catalogue the schema commands act on, and what each compiled
 statement does to it.

 `Apply` says what a statement does when PostgreSQL accepts it and refuses the cases the
 source relies on PostgreSQL refusing.  Every other refusal (a row that violates a new
 constraint, a lock timeout, a missing privilege) is an abort step of the protocol, so
 `Apply` may accept more than PostgreSQL does, never less.
*/
module Ddl {
  import opened Common

  datatype ColumnType =
    Text | Integer | Bigint | Boolean | Uuid | Timestamp | Timestamptz | Date | Numeric | Jsonb

  datatype Primitive = PNull | PString(s: string) | PNumber(n: real) | PBoolean(b: bool)

  datatype Default = NoDefault | Literal(value: Primitive) | CurrentTimestamp | RandomUuid

  datatype ColumnSpec =
    ColumnSpec(name: string, typ: ColumnType, nullable: bool, default: Default, primaryKey: bool)

  datatype Target = Target(schema: string, table: string)

  datatype KeyAction = NoAction | Restrict | Cascade | SetNull

  datatype Template = Read | Insert | Update | Delete

  datatype Privilege = SelectPrivilege | InsertPrivilege | UpdatePrivilege

  type Oid = nat

  // ---------- catalogue ----------

  /** `attnum` is never reused within a table: it is the column's identity over renames. */
  datatype Column = Column(attnum: nat, typ: ColumnType, nullable: bool, default: Default)

  datatype Table = Table(columns: map<string, Column>, nextAttnum: nat, rowSecurity: bool, forced: bool)

  datatype Constraint =
    | PrimaryKey(columns: set<nat>)
    | Unique(columns: set<nat>)
    | ForeignKey(columns: set<nat>, references: Oid, referenced: set<nat>, onUpdate: KeyAction, onDelete: KeyAction)

  datatype Policy = Policy(template: Template, column: nat, roles: set<string>)

  datatype Index = Index(table: Oid, columns: set<nat>)

  datatype GrantKind = DeleteGrant | ColumnGrant(privilege: Privilege, column: string)

  /** `byAdmin` tells a grant made by the schema-admin role from one made by another role. */
  datatype Grant = Grant(table: Oid, role: string, kind: GrantKind, byAdmin: bool)

  /** A row of the durable exposure registry; the map key is its unique (schema, table) pair. */
  datatype Row = Row(alias: string, exposed: bool)

  datatype Db = Db(
    schemas: set<string>,
    names: map<Target, Oid>,
    tables: map<Oid, Table>,
    constraints: map<(Oid, string), Constraint>,
    policies: map<(Oid, string), Policy>,
    indexes: map<(string, string), Index>,
    grants: set<Grant>,
    usage: set<(string, string)>,
    members: map<string, set<string>>,
    registry: map<Target, Row>,
    nextOid: Oid)

  // ---------- statements ----------

  datatype Stmt =
    | CreateTable(target: Target, specs: seq<ColumnSpec>)
    | RenameTable(target: Target, newName: string)
    | DropTable(target: Target)
    | AddColumn(target: Target, spec: ColumnSpec)
    | RenameColumn(target: Target, column: string, newName: string)
    | DropColumn(target: Target, column: string)
    | SetDefault(target: Target, column: string, typ: ColumnType, default: Default)
    | DropDefault(target: Target, column: string)
    | SetNotNull(target: Target, column: string)
    | DropNotNull(target: Target, column: string)
    | AssertColumnType(target: Target, column: string, typ: ColumnType)
    | AlterColumnType(target: Target, column: string, typ: ColumnType)
    | AssertNotExposed(target: Target)
    | CreateIndex(target: Target, name: string, columns: seq<string>)
    | DropIndex(schema: string, name: string)
    | AddUnique(target: Target, name: string, columns: seq<string>)
    | AddForeignKey(target: Target, name: string, columns: seq<string>, references: Target,
                    referenced: seq<string>, onUpdate: KeyAction, onDelete: KeyAction)
    | DropConstraint(target: Target, name: string)
    | EnableRowSecurity(target: Target)
    | ForceRowSecurity(target: Target)
    | NoForceRowSecurity(target: Target)
    | DisableRowSecurity(target: Target)
    | CreatePolicy(target: Target, name: string, column: string, template: Template, role: string)
    | DropPolicy(target: Target, name: string)
    | AssertExposable(target: Target, role: string)
    | GrantUsage(schema: string, role: string)
    | GrantDelete(target: Target, role: string)
    | GrantColumns(target: Target, privilege: Privilege, columns: seq<string>, role: string)
    | Revoke(target: Target, role: string)
    | AssertRevoked(target: Target, role: string)
    | MarkExposed(alias: string, target: Target)
    | MarkUnexposed(target: Target)

  // ---------- readings of the catalogue ----------

  predicate Exposed(db: Db, t: Target) {
    t in db.registry && db.registry[t].exposed
  }

  predicate Exists(db: Db, t: Target) {
    t in db.names && db.names[t] in db.tables
  }

  function TableAt(db: Db, t: Target): Table
    requires Exists(db, t)
  {
    db.tables[db.names[t]]
  }

  predicate HasColumn(db: Db, t: Target, column: string) {
    Exists(db, t) && column in TableAt(db, t).columns
  }

  predicate Rewrites(action: KeyAction) {
    action == Cascade || action == SetNull
  }

  /** A CASCADE or SET NULL foreign key has the table at one of its ends. */
  predicate Cascaded(db: Db, oid: Oid) {
    exists k <- db.constraints ::
      && db.constraints[k].ForeignKey?
      && (Rewrites(db.constraints[k].onUpdate) || Rewrites(db.constraints[k].onDelete))
      && (k.0 == oid || db.constraints[k].references == oid)
  }

  predicate AppliesTo(db: Db, policy: Policy, role: string) {
    || "public" in policy.roles
    || role in policy.roles
    || (role in db.members && exists r <- policy.roles :: r in db.members[role])
  }

  predicate HasPolicyFor(db: Db, oid: Oid, role: string) {
    exists k <- db.policies :: k.0 == oid && AppliesTo(db, db.policies[k], role)
  }

  predicate HoldsPrivilege(db: Db, oid: Oid, role: string) {
    exists g <- db.grants :: g.table == oid && g.role == role
  }

  /** Another table has a foreign key to this one (a self reference does not block a drop). */
  predicate ReferencedByOther(db: Db, oid: Oid) {
    exists k <- db.constraints ::
      db.constraints[k].ForeignKey? && db.constraints[k].references == oid && k.0 != oid
  }

  predicate ColumnReferenced(db: Db, oid: Oid, attnum: nat) {
    exists k <- db.constraints ::
      db.constraints[k].ForeignKey? && db.constraints[k].references == oid && attnum in db.constraints[k].referenced
  }

  predicate ColumnInPolicy(db: Db, oid: Oid, attnum: nat) {
    exists k <- db.policies :: k.0 == oid && db.policies[k].column == attnum
  }

  function Attnums(table: Table, columns: seq<string>): set<nat>
    requires forall c <- columns :: c in table.columns
  {
    set c | c in columns :: table.columns[c].attnum
  }

  // ---------- effects ----------

  function SetTable(db: Db, t: Target, table: Table): Db
    requires Exists(db, t)
  {
    db.(tables := db.tables[db.names[t] := table])
  }

  function SetColumn(db: Db, t: Target, column: string, value: Column): Db
    requires Exists(db, t)
  {
    SetTable(db, t, TableAt(db, t).(columns := TableAt(db, t).columns[column := value]))
  }

  function NewColumn(attnum: nat, spec: ColumnSpec): Column {
    Column(attnum, spec.typ, spec.nullable, spec.default)
  }

  function NewColumns(specs: seq<ColumnSpec>): map<string, Column>
  {
    if specs == [] then map[]
    else
      var last := |specs| - 1;
      NewColumns(specs[..last])[specs[last].name := NewColumn(|specs|, specs[last])]
  }

  function PrimaryKeyColumns(specs: seq<ColumnSpec>): set<nat> {
    set i | 0 <= i < |specs| && specs[i].primaryKey :: i + 1
  }

  function ApplyCreateTable(db: Db, t: Target, specs: seq<ColumnSpec>): Option<Db> {
    if t.schema !in db.schemas || t in db.names then None
    else
      var oid := db.nextOid;
      var table := Table(NewColumns(specs), |specs| + 1, false, false);
      var created := db.(names := db.names[t := oid], tables := db.tables[oid := table], nextOid := oid + 1);
      if PrimaryKeyColumns(specs) == {} then Some(created)
      else
        Some(created.(constraints := db.constraints[(oid, t.table + "_pkey") := PrimaryKey(PrimaryKeyColumns(specs))]))
  }

  function ApplyRenameTable(db: Db, t: Target, newName: string): Option<Db> {
    var renamed := Target(t.schema, newName);
    if !Exists(db, t) || renamed in db.names then None
    else Some(db.(names := (db.names - {t})[renamed := db.names[t]]))
  }

  function ApplyDropTable(db: Db, t: Target): Option<Db> {
    if !Exists(db, t) || ReferencedByOther(db, db.names[t]) then None
    else
      var oid := db.names[t];
      Some(db.(
        names := db.names - {t},
        tables := db.tables - {oid},
        constraints := map k | k in db.constraints && k.0 != oid :: db.constraints[k],
        policies := map k | k in db.policies && k.0 != oid :: db.policies[k],
        indexes := map k | k in db.indexes && db.indexes[k].table != oid :: db.indexes[k],
        grants := set g | g in db.grants && g.table != oid))
  }

  function ApplyAddColumn(db: Db, t: Target, spec: ColumnSpec): Option<Db> {
    if !Exists(db, t) || spec.name in TableAt(db, t).columns then None
    else
      var table := TableAt(db, t);
      Some(SetTable(db, t, table.(
        columns := table.columns[spec.name := NewColumn(table.nextAttnum, spec)],
        nextAttnum := table.nextAttnum + 1)))
  }

  function RenameGrant(g: Grant, oid: Oid, column: string, newName: string): Grant {
    if g.table == oid && g.kind.ColumnGrant? && g.kind.column == column
    then g.(kind := g.kind.(column := newName))
    else g
  }

  function ApplyRenameColumn(db: Db, t: Target, column: string, newName: string): Option<Db> {
    if !HasColumn(db, t, column) || newName in TableAt(db, t).columns then None
    else
      var table := TableAt(db, t);
      var renamed := SetTable(db, t, table.(columns := (table.columns - {column})[newName := table.columns[column]]));
      Some(renamed.(grants := set g | g in db.grants :: RenameGrant(g, db.names[t], column, newName)))
  }

  /** Dropping a column drops the constraints and indexes of its own table that use it. */
  function ApplyDropColumn(db: Db, t: Target, column: string): Option<Db> {
    if !HasColumn(db, t, column) then None
    else
      var oid := db.names[t];
      var table := TableAt(db, t);
      var attnum := table.columns[column].attnum;
      if ColumnReferenced(db, oid, attnum) || ColumnInPolicy(db, oid, attnum) then None
      else
        Some(SetTable(db, t, table.(columns := table.columns - {column})).(
          constraints := map k | k in db.constraints && !(k.0 == oid && attnum in db.constraints[k].columns)
                           :: db.constraints[k],
          indexes := map k | k in db.indexes && !(db.indexes[k].table == oid && attnum in db.indexes[k].columns)
                       :: db.indexes[k],
          grants := set g | g in db.grants && !(g.table == oid && g.kind.ColumnGrant? && g.kind.column == column)))
  }

  function ApplyAlterColumnType(db: Db, t: Target, column: string, typ: ColumnType): Option<Db> {
    if !HasColumn(db, t, column) then None
    else Some(SetColumn(db, t, column, TableAt(db, t).columns[column].(typ := typ)))
  }

  function ApplySetColumnDefault(db: Db, t: Target, column: string, default: Default): Option<Db> {
    if !HasColumn(db, t, column) then None
    else Some(SetColumn(db, t, column, TableAt(db, t).columns[column].(default := default)))
  }

  function ApplySetNullable(db: Db, t: Target, column: string, nullable: bool): Option<Db> {
    if !HasColumn(db, t, column) then None
    else Some(SetColumn(db, t, column, TableAt(db, t).columns[column].(nullable := nullable)))
  }

  function ApplyAddConstraint(db: Db, t: Target, name: string, constraint: Constraint): Option<Db>
    requires Exists(db, t)
  {
    if (db.names[t], name) in db.constraints then None
    else Some(db.(constraints := db.constraints[(db.names[t], name) := constraint]))
  }

  function ApplyAddUnique(db: Db, t: Target, name: string, columns: seq<string>): Option<Db> {
    if !(forall c <- columns :: HasColumn(db, t, c)) || !Exists(db, t) then None
    else ApplyAddConstraint(db, t, name, Unique(Attnums(TableAt(db, t), columns)))
  }

  function ApplyAddForeignKey(db: Db, t: Target, name: string, columns: seq<string>, references: Target,
                              referenced: seq<string>, onUpdate: KeyAction, onDelete: KeyAction): Option<Db>
  {
    if !Exists(db, t) || !Exists(db, references) then None
    else if !(forall c <- columns :: HasColumn(db, t, c)) then None
    else if !(forall c <- referenced :: HasColumn(db, references, c)) then None
    else
      ApplyAddConstraint(db, t, name,
        ForeignKey(Attnums(TableAt(db, t), columns), db.names[references],
                   Attnums(TableAt(db, references), referenced), onUpdate, onDelete))
  }

  function ApplyDropConstraint(db: Db, t: Target, name: string): Option<Db> {
    if !Exists(db, t) || (db.names[t], name) !in db.constraints then None
    else Some(db.(constraints := db.constraints - {(db.names[t], name)}))
  }

  function ApplyCreateIndex(db: Db, t: Target, name: string, columns: seq<string>): Option<Db> {
    if !Exists(db, t) || !(forall c <- columns :: HasColumn(db, t, c)) then None
    else if (t.schema, name) in db.indexes then None
    else Some(db.(indexes := db.indexes[(t.schema, name) := Index(db.names[t], Attnums(TableAt(db, t), columns))]))
  }

  function ApplyDropIndex(db: Db, schema: string, name: string): Option<Db> {
    if (schema, name) !in db.indexes then None
    else Some(db.(indexes := db.indexes - {(schema, name)}))
  }

  function ApplyRowSecurity(db: Db, t: Target, enabled: bool): Option<Db> {
    if !Exists(db, t) then None else Some(SetTable(db, t, TableAt(db, t).(rowSecurity := enabled)))
  }

  function ApplyForce(db: Db, t: Target, forced: bool): Option<Db> {
    if !Exists(db, t) then None else Some(SetTable(db, t, TableAt(db, t).(forced := forced)))
  }

  function ApplyCreatePolicy(db: Db, t: Target, name: string, column: string, template: Template, role: string)
    : Option<Db>
  {
    if !HasColumn(db, t, column) || (db.names[t], name) in db.policies then None
    else
      var policy := Policy(template, TableAt(db, t).columns[column].attnum, {role});
      Some(db.(policies := db.policies[(db.names[t], name) := policy]))
  }

  function ApplyDropPolicy(db: Db, t: Target, name: string): Option<Db> {
    if !Exists(db, t) || (db.names[t], name) !in db.policies then None
    else Some(db.(policies := db.policies - {(db.names[t], name)}))
  }

  /** The locked prerequisite guard of every expose plan. */
  predicate Exposable(db: Db, t: Target, role: string) {
    && Exists(db, t)
    && !Cascaded(db, db.names[t])
    && !Exposed(db, t)
    && TableAt(db, t).rowSecurity
    && TableAt(db, t).forced
    && HasPolicyFor(db, db.names[t], role)
  }

  function ApplyGrantColumns(db: Db, t: Target, privilege: Privilege, columns: seq<string>, role: string): Option<Db> {
    if !Exists(db, t) || !(forall c <- columns :: HasColumn(db, t, c)) then None
    else
      var oid := db.names[t];
      Some(db.(grants := db.grants + set c | c in columns :: Grant(oid, role, ColumnGrant(privilege, c), true)))
  }

  /** A REVOKE removes only the grants its own role made. */
  function ApplyRevoke(db: Db, t: Target, role: string): Option<Db> {
    if !Exists(db, t) then None
    else Some(db.(grants := set g | g in db.grants && !(g.table == db.names[t] && g.role == role && g.byAdmin)))
  }

  /** INSERT ... ON CONFLICT (schema_name, table_name) DO UPDATE, under the unique alias. */
  function ApplyMarkExposed(db: Db, alias: string, t: Target): Option<Db> {
    if exists other <- db.registry :: other != t && db.registry[other].alias == alias then None
    else Some(db.(registry := db.registry[t := Row(alias, true)]))
  }

  function ApplyMarkUnexposed(db: Db, t: Target): Option<Db> {
    if t !in db.registry then Some(db)
    else Some(db.(registry := db.registry[t := db.registry[t].(exposed := false)]))
  }

  function Require(condition: bool, db: Db): Option<Db> {
    if condition then Some(db) else None
  }

  function Apply(stmt: Stmt, db: Db): Option<Db> {
    match stmt
    case CreateTable(t, specs) => ApplyCreateTable(db, t, specs)
    case RenameTable(t, newName) => ApplyRenameTable(db, t, newName)
    case DropTable(t) => ApplyDropTable(db, t)
    case AddColumn(t, spec) => ApplyAddColumn(db, t, spec)
    case RenameColumn(t, c, newName) => ApplyRenameColumn(db, t, c, newName)
    case DropColumn(t, c) => ApplyDropColumn(db, t, c)
    case SetDefault(t, c, _, default) => ApplySetColumnDefault(db, t, c, default)
    case DropDefault(t, c) => ApplySetColumnDefault(db, t, c, NoDefault)
    case SetNotNull(t, c) => ApplySetNullable(db, t, c, false)
    case DropNotNull(t, c) => ApplySetNullable(db, t, c, true)
    case AssertColumnType(t, c, typ) => Require(HasColumn(db, t, c) && TableAt(db, t).columns[c].typ == typ, db)
    case AlterColumnType(t, c, typ) => ApplyAlterColumnType(db, t, c, typ)
    case AssertNotExposed(t) => Require(!Exposed(db, t), db)
    case CreateIndex(t, name, columns) => ApplyCreateIndex(db, t, name, columns)
    case DropIndex(schema, name) => ApplyDropIndex(db, schema, name)
    case AddUnique(t, name, columns) => ApplyAddUnique(db, t, name, columns)
    case AddForeignKey(t, name, columns, references, referenced, onUpdate, onDelete) =>
      ApplyAddForeignKey(db, t, name, columns, references, referenced, onUpdate, onDelete)
    case DropConstraint(t, name) => ApplyDropConstraint(db, t, name)
    case EnableRowSecurity(t) => ApplyRowSecurity(db, t, true)
    case ForceRowSecurity(t) => ApplyForce(db, t, true)
    case NoForceRowSecurity(t) => ApplyForce(db, t, false)
    case DisableRowSecurity(t) => ApplyRowSecurity(db, t, false)
    case CreatePolicy(t, name, c, template, role) => ApplyCreatePolicy(db, t, name, c, template, role)
    case DropPolicy(t, name) => ApplyDropPolicy(db, t, name)
    case AssertExposable(t, role) => Require(Exposable(db, t, role), db)
    case GrantUsage(schema, role) =>
      if schema in db.schemas then Some(db.(usage := db.usage + {(schema, role)})) else None
    case GrantDelete(t, role) =>
      if Exists(db, t) then Some(db.(grants := db.grants + {Grant(db.names[t], role, DeleteGrant, true)})) else None
    case GrantColumns(t, privilege, columns, role) => ApplyGrantColumns(db, t, privilege, columns, role)
    case Revoke(t, role) => ApplyRevoke(db, t, role)
    case AssertRevoked(t, role) => Require(Exists(db, t) && !HoldsPrivilege(db, db.names[t], role), db)
    case MarkExposed(alias, t) => ApplyMarkExposed(db, alias, t)
    case MarkUnexposed(t) => ApplyMarkUnexposed(db, t)
  }

  /** A statement list run in order; the first refusal refuses the whole list. */
  function ApplyAll(stmts: seq<Stmt>, db: Db): Option<Db> {
    if stmts == [] then Some(db)
    else
      var next := Apply(stmts[0], db);
      if next.None? then None else ApplyAll(stmts[1..], next.value)
  }

  lemma {:induction false} ApplyAllAppend(stmts: seq<Stmt>, last: Stmt, db: Db)
    ensures ApplyAll(stmts + [last], db)
         == if ApplyAll(stmts, db).None? then None else Apply(last, ApplyAll(stmts, db).value)
  {
    if stmts == [] {
      assert stmts + [last] == [last];
      assert ApplyAll([last], db) == Apply(last, db);
    } else {
      assert (stmts + [last])[1..] == stmts[1..] + [last];
      var next := Apply(stmts[0], db);
      if next.Some? {
        ApplyAllAppend(stmts[1..], last, next.value);
      }
    }
  }

  lemma ApplyAllThree(first: Stmt, second: Stmt, third: Stmt, db: Db, db': Db)
    requires ApplyAll([first, second, third], db) == Some(db')
    ensures Apply(first, db).Some?
    ensures Apply(second, Apply(first, db).value).Some?
    ensures Apply(third, Apply(second, Apply(first, db).value).value) == Some(db')
  {
    assert [first, second, third] == [] + [first] + [second] + [third];
    ApplyAllAppend([], first, db);
    ApplyAllAppend([] + [first], second, db);
    ApplyAllAppend([] + [first] + [second], third, db);
  }
}
