/**
 What each command does to the catalogue once its plan commits, and when its plan goes
 through: stated over the command's own fields and the states before and after.
*/
module Effects {
  import opened Common
  import opened Ddl
  import opened Commands

  // ---------- frames ----------

  /** Of all tables at most the one named here has changed. */
  ghost predicate OnlyTableAt(db: Db, db': Db, t: Target) {
    && Exists(db, t) && db'.tables.Keys == db.tables.Keys
    && forall oid <- db.tables | oid != db.names[t] :: db'.tables[oid] == db.tables[oid]
  }

  /** Of a table's columns at most the ones named here have changed; so has nothing else of it. */
  ghost predicate OnlyColumns(table: Table, table': Table, names: set<string>) {
    && table'.rowSecurity == table.rowSecurity && table'.forced == table.forced
    && (forall d | d !in names :: d in table'.columns <==> d in table.columns)
    && (forall d <- table.columns | d !in names :: table'.columns[d] == table.columns[d])
  }

  /** One column became another value, and nothing else happened anywhere. */
  ghost predicate ColumnBecame(db: Db, db': Db, t: Target, c: string, value: Column) {
    && db' == db.(tables := db'.tables) && OnlyTableAt(db, db', t)
    && OnlyColumns(TableAt(db, t), db'.tables[db.names[t]], {c})
    && db'.tables[db.names[t]].nextAttnum == TableAt(db, t).nextAttnum
    && c in db'.tables[db.names[t]].columns && db'.tables[db.names[t]].columns[c] == value
  }

  /** The numbers of some columns of a table. */
  ghost predicate Numbers(table: Table, columns: seq<string>, attnums: set<nat>) {
    && (forall c <- columns :: c in table.columns && table.columns[c].attnum in attnums)
    && (forall n <- attnums :: exists c :: c in columns && c in table.columns && table.columns[c].attnum == n)
  }

  /** One entry was added to a map, under a key it lacked. */
  ghost predicate Added<K(!new), V>(m: map<K, V>, m': map<K, V>, key: K, value: V) {
    && key !in m && key in m' && m'[key] == value
    && (forall k | k != key :: k in m' <==> k in m)
    && (forall k <- m | k != key :: m'[k] == m[k])
  }

  /** One entry was set, whether or not its key was there; no other changed. */
  ghost predicate Set<K(!new), V>(m: map<K, V>, m': map<K, V>, key: K) {
    && key in m'
    && (forall k | k != key :: k in m' <==> k in m)
    && (forall k <- m | k != key :: m'[k] == m[k])
  }

  /** Exactly the entries that a condition names are gone. */
  ghost predicate Kept<K(!new), V>(m: map<K, V>, m': map<K, V>, keep: K -> bool) {
    && (forall k :: k in m' <==> k in m && keep(k))
    && (forall k <- m' :: m'[k] == m[k])
  }

  ghost predicate KeysOnTable(db: Db, t: Target, keys: seq<string>) {
    Exists(db, t) && forall c <- keys :: c in TableAt(db, t).columns
  }

  // ---------- tables ----------

  /** The columns of a new table: `id`, then the given ones, each as its specification says. */
  ghost predicate HasSpecs(table: Table, specs: seq<ColumnSpec>) {
    && (forall c :: c in table.columns <==> exists i | 0 <= i < |specs| :: specs[i].name == c)
    && (forall i | 0 <= i < |specs| ::
          && specs[i].name in table.columns
          && table.columns[specs[i].name] == Column(i + 1, specs[i].typ, specs[i].nullable, specs[i].default))
  }

  /** The new table's primary key: `id` and the columns marked as keys. */
  ghost predicate IsTableKey(constraint: Constraint, columns: seq<ColumnSpec>) {
    && constraint.PrimaryKey?
    && forall n :: n in constraint.columns <==> n == 1 || exists i | 0 <= i < |columns| :: columns[i].primaryKey && n == i + 2
  }

  ghost predicate TableCreated(db: Db, db': Db, t: Target, columns: seq<ColumnSpec>) {
    var id := ColumnSpec("id", Uuid, false, RandomUuid, true);
    var oid := db.nextOid;
    var key := (oid, t.table + "_pkey");
    && db' == db.(names := db'.names, tables := db'.tables, constraints := db'.constraints, nextOid := oid + 1)
    && Added(db.names, db'.names, t, oid)
    && Set(db.tables, db'.tables, oid) && Set(db.constraints, db'.constraints, key)
    && !db'.tables[oid].rowSecurity && !db'.tables[oid].forced && db'.tables[oid].nextAttnum == |columns| + 2
    && HasSpecs(db'.tables[oid], [id] + columns)
    && IsTableKey(db'.constraints[key], columns)
  }

  ghost predicate TableRenamed(db: Db, db': Db, t: Target, newName: string) {
    var renamed := Target(t.schema, newName);
    && t in db.names && db' == db.(names := db'.names)
    && t !in db'.names && renamed in db'.names && db'.names[renamed] == db.names[t]
    && (forall u | u != t && u != renamed :: u in db'.names <==> u in db.names)
    && (forall u <- db.names | u != t && u != renamed :: db'.names[u] == db.names[u])
  }

  ghost predicate OwnObjectsGone(db: Db, db': Db, oid: Oid) {
    && Kept(db.constraints, db'.constraints, (k: (Oid, string)) => k.0 != oid)
    && Kept(db.policies, db'.policies, (k: (Oid, string)) => k.0 != oid)
    && Kept(db.indexes, db'.indexes, (k: (string, string)) => k in db.indexes && db.indexes[k].table != oid)
  }

  /** The table is gone with everything that was its own; nothing else is. */
  ghost predicate TableDropped(db: Db, db': Db, t: Target) {
    t in db.names &&
    var oid := db.names[t];
    && db' == db.(names := db'.names, tables := db'.tables, constraints := db'.constraints,
                  policies := db'.policies, indexes := db'.indexes, grants := db'.grants)
    && Kept(db.names, db'.names, (u: Target) => u != t)
    && Kept(db.tables, db'.tables, (o: Oid) => o != oid)
    && OwnObjectsGone(db, db', oid)
    && (forall g :: g in db'.grants <==> g in db.grants && g.table != oid)
  }

  // ---------- columns ----------

  ghost predicate ColumnAdded(db: Db, db': Db, t: Target, spec: ColumnSpec) {
    && db' == db.(tables := db'.tables) && OnlyTableAt(db, db', t)
    && var table, table' := TableAt(db, t), db'.tables[db.names[t]];
       && OnlyColumns(table, table', {spec.name}) && spec.name !in table.columns && spec.name in table'.columns
       && table'.columns[spec.name] == Column(table.nextAttnum, spec.typ, spec.nullable, spec.default)
       && table'.nextAttnum == table.nextAttnum + 1
  }

  /** The column keeps its number, type, nullability and default; its grants follow it. */
  ghost predicate ColumnRenamed(db: Db, db': Db, t: Target, c: string, newName: string) {
    && db' == db.(tables := db'.tables, grants := db'.grants) && OnlyTableAt(db, db', t)
    && var oid, table, table' := db.names[t], TableAt(db, t), db'.tables[db.names[t]];
       && OnlyColumns(table, table', {c, newName}) && table'.nextAttnum == table.nextAttnum
       && c in table.columns && newName !in table.columns && c !in table'.columns && newName in table'.columns
       && table'.columns[newName] == table.columns[c]
       && (forall g: Grant | !(g.table == oid && g.kind.ColumnGrant?) :: g in db'.grants <==> g in db.grants)
       && (forall role, p, d, own ::
             Grant(oid, role, ColumnGrant(p, d), own) in db'.grants <==>
               || (d != c && Grant(oid, role, ColumnGrant(p, d), own) in db.grants)
               || (d == newName && Grant(oid, role, ColumnGrant(p, c), own) in db.grants))
  }

  /** The column is gone with its table's constraints and indexes over it and the grants on it. */
  ghost predicate ColumnDropped(db: Db, db': Db, t: Target, c: string) {
    && db' == db.(tables := db'.tables, constraints := db'.constraints, indexes := db'.indexes, grants := db'.grants)
    && OnlyTableAt(db, db', t)
    && var oid, table, table' := db.names[t], TableAt(db, t), db'.tables[db.names[t]];
       && OnlyColumns(table, table', {c}) && table'.nextAttnum == table.nextAttnum
       && c in table.columns && c !in table'.columns
       && var n := table.columns[c].attnum;
          && Kept(db.constraints, db'.constraints,
                  (k: (Oid, string)) => k.0 != oid || (k in db.constraints && n !in db.constraints[k].columns))
          && Kept(db.indexes, db'.indexes,
                  (k: (string, string)) => k in db.indexes && (db.indexes[k].table != oid || n !in db.indexes[k].columns))
          && (forall g :: g in db'.grants <==>
                g in db.grants && !(g.table == oid && g.kind.ColumnGrant? && g.kind.column == c))
  }

  // ---------- row security and policies ----------

  ghost predicate SecurityBecame(db: Db, db': Db, t: Target, rowSecurity: bool, forced: bool) {
    && db' == db.(tables := db'.tables) && OnlyTableAt(db, db', t)
    && db'.tables[db.names[t]] == TableAt(db, t).(rowSecurity := rowSecurity, forced := forced)
  }

  // ---------- exposure ----------

  /** The privileges an exposed table gives the runtime role: DELETE, and each column its own. */
  ghost predicate Contracted(g: Grant, oid: Oid, role: string, readable: seq<string>, insertable: seq<string>, updatable: seq<string>) {
    && g.table == oid && g.role == role && g.byAdmin
    && match g.kind
       case DeleteGrant => true
       case ColumnGrant(SelectPrivilege, c) => c in readable
       case ColumnGrant(InsertPrivilege, c) => c in insertable
       case ColumnGrant(UpdatePrivilege, c) => c in updatable
  }

  ghost predicate TableExposed(db: Db, db': Db, t: Target, role: string, alias: string,
                               readable: seq<string>, insertable: seq<string>, updatable: seq<string>)
  {
    && db' == db.(grants := db'.grants, usage := db'.usage, registry := db'.registry)
    && Exists(db, t)
    && (forall g :: g in db'.grants <==>
          g in db.grants || Contracted(g, db.names[t], role, readable, insertable, updatable))
    && (forall u :: u in db'.usage <==> u in db.usage || u == (t.schema, role))
    && t in db'.registry && db'.registry[t] == Row(alias, true)
    && (forall u | u != t :: u in db'.registry <==> u in db.registry)
    && (forall u <- db.registry | u != t :: db'.registry[u] == db.registry[u])
  }

  ghost predicate TableUnexposed(db: Db, db': Db, t: Target, role: string) {
    && db' == db.(grants := db'.grants, registry := db'.registry)
    && Exists(db, t)
    && (forall g :: g in db'.grants <==> g in db.grants && !(g.table == db.names[t] && g.role == role))
    && db'.registry.Keys == db.registry.Keys
    && (forall u <- db.registry ::
          db'.registry[u] == if u == t then Row(db.registry[u].alias, false) else db.registry[u])
  }

  // ---------- every command ----------

  /** What the states before and after a committed command have to do with each other. */
  ghost predicate Done(cfg: Config, command: Command, db: Db, db': Db) {
    match command
    case TableCreate(t, columns) => TableCreated(db, db', t, columns)
    case TableRename(t, newName) => TableRenamed(db, db', t, newName)
    case TableDrop(t) => TableDropped(db, db', t)
    case ColumnAdd(t, spec) => ColumnAdded(db, db', t, spec)
    case ColumnRename(t, c, newName) => ColumnRenamed(db, db', t, c, newName)
    case ColumnDrop(t, c) => ColumnDropped(db, db', t, c)
    case DefaultSet(t, c, default, _) =>
      HasColumn(db, t, c) && ColumnBecame(db, db', t, c, TableAt(db, t).columns[c].(default := default))
    case DefaultDrop(t, c) =>
      HasColumn(db, t, c) && ColumnBecame(db, db', t, c, TableAt(db, t).columns[c].(default := NoDefault))
    case NotNullSet(t, c) =>
      HasColumn(db, t, c) && ColumnBecame(db, db', t, c, TableAt(db, t).columns[c].(nullable := false))
    case NotNullDrop(t, c) =>
      HasColumn(db, t, c) && ColumnBecame(db, db', t, c, TableAt(db, t).columns[c].(nullable := true))
    case TypeChange(t, c, from, to) =>
      HasColumn(db, t, c) && TableAt(db, t).columns[c].typ == from
      && ColumnBecame(db, db', t, c, TableAt(db, t).columns[c].(typ := to))
    case IndexCreate(t, keys, name) =>
      KeysOnTable(db, t, keys) && db' == db.(indexes := db'.indexes)
      && exists attnums :: Numbers(TableAt(db, t), keys, attnums)
           && Added(db.indexes, db'.indexes, (t.schema, Named(cfg, name, "idx", t.table, keys)), Index(db.names[t], attnums))
    case IndexDrop(t, objectName) =>
      (t.schema, objectName) in db.indexes && db' == db.(indexes := db'.indexes)
      && Kept(db.indexes, db'.indexes, (k: (string, string)) => k != (t.schema, objectName))
    case UniqueAdd(t, keys, name) =>
      KeysOnTable(db, t, keys) && db' == db.(constraints := db'.constraints)
      && exists attnums :: Numbers(TableAt(db, t), keys, attnums)
           && Added(db.constraints, db'.constraints, (db.names[t], Named(cfg, name, "uniq", t.table, keys)), Unique(attnums))
    case ConstraintDrop(t, objectName) =>
      Exists(db, t) && db' == db.(constraints := db'.constraints) && (db.names[t], objectName) in db.constraints
      && Kept(db.constraints, db'.constraints, (k: (Oid, string)) => k != (db.names[t], objectName))
    case ForeignKeyAdd(t, keys, references, referenced, onUpdate, onDelete, name) =>
      KeysOnTable(db, t, keys) && KeysOnTable(db, references, referenced) && db' == db.(constraints := db'.constraints)
      && exists own, others :: Numbers(TableAt(db, t), keys, own) && Numbers(TableAt(db, references), referenced, others)
           && Added(db.constraints, db'.constraints, (db.names[t], Named(cfg, name, "fkey", t.table, keys)),
                    ForeignKey(own, db.names[references], others, onUpdate, onDelete))
    case RlsEnable(t) => SecurityBecame(db, db', t, true, true)
    case RlsDisable(t) => SecurityBecame(db, db', t, false, false)
    case PolicyCreate(t, c, template) =>
      HasColumn(db, t, c) && db' == db.(policies := db'.policies)
      && Added(db.policies, db'.policies, (db.names[t], PolicyName(cfg.hash, t.table, c, template)),
               Policy(template, TableAt(db, t).columns[c].attnum, {cfg.runtimeRole}))
    case PolicyRemove(t, c, template) =>
      Exists(db, t) && db' == db.(policies := db'.policies)
      && (db.names[t], PolicyName(cfg.hash, t.table, c, template)) in db.policies
      && Kept(db.policies, db'.policies,
              (k: (Oid, string)) => k != (db.names[t], PolicyName(cfg.hash, t.table, c, template)))
    case Expose(t, alias, readable, insertable, updatable) =>
      TableExposed(db, db', t, cfg.runtimeRole, alias, readable, insertable, updatable)
    case Unexpose(t) => TableUnexposed(db, db', t, cfg.runtimeRole)
  }

  /** The name given, or the deterministic one. */
  function Named(cfg: Config, name: Option<string>, kind: string, table: string, keys: seq<string>): string {
    match name
    case Some(given) => given
    case None => DeterministicObjectName(cfg.hash, kind, table, keys)
  }

  /** No foreign key of another table points to this one. */
  ghost predicate Unreferenced(db: Db, oid: Oid) {
    forall k <- db.constraints | db.constraints[k].ForeignKey? && db.constraints[k].references == oid :: k.0 == oid
  }

  /** No foreign key points to the column and no policy is bound to it. */
  ghost predicate Free(db: Db, oid: Oid, attnum: nat) {
    && (forall k <- db.constraints | db.constraints[k].ForeignKey? && db.constraints[k].references == oid ::
          attnum !in db.constraints[k].referenced)
    && (forall k <- db.policies | k.0 == oid :: db.policies[k].column != attnum)
  }

  /** No CASCADE or SET NULL key at either end. */
  ghost predicate NothingRewrites(db: Db, oid: Oid) {
    forall k <- db.constraints | db.constraints[k].ForeignKey? && (k.0 == oid || db.constraints[k].references == oid) ::
      db.constraints[k].onUpdate in {NoAction, Restrict} && db.constraints[k].onDelete in {NoAction, Restrict}
  }

  /** Some policy of the table is for everybody, for the role, or for a role it is a member of. */
  ghost predicate PolicyReaches(db: Db, oid: Oid, role: string) {
    exists k <- db.policies :: k.0 == oid &&
      ({"public", role} + (if role in db.members then db.members[role] else {})) * db.policies[k].roles != {}
  }

  ghost predicate Hidden(db: Db, t: Target) {
    t in db.registry ==> !db.registry[t].exposed
  }

  ghost predicate AliasFree(db: Db, t: Target, alias: string) {
    forall u <- db.registry | u != t :: db.registry[u].alias != alias
  }

  /** When the plan of a command goes through. */
  ghost predicate Possible(cfg: Config, command: Command, db: Db) {
    match command
    case TableCreate(t, _) => t.schema in db.schemas && t !in db.names
    case TableRename(t, newName) => Hidden(db, t) && Exists(db, t) && Target(t.schema, newName) !in db.names
    case TableDrop(t) => Hidden(db, t) && Exists(db, t) && Unreferenced(db, db.names[t])
    case ColumnAdd(t, spec) => Hidden(db, t) && Exists(db, t) && spec.name !in TableAt(db, t).columns
    case ColumnRename(t, c, newName) => Hidden(db, t) && HasColumn(db, t, c) && newName !in TableAt(db, t).columns
    case ColumnDrop(t, c) => Hidden(db, t) && HasColumn(db, t, c) && Free(db, db.names[t], TableAt(db, t).columns[c].attnum)
    case DefaultSet(t, c, _, _) => Hidden(db, t) && HasColumn(db, t, c)
    case DefaultDrop(t, c) => Hidden(db, t) && HasColumn(db, t, c)
    case NotNullSet(t, c) => Hidden(db, t) && HasColumn(db, t, c)
    case NotNullDrop(t, c) => Hidden(db, t) && HasColumn(db, t, c)
    case TypeChange(t, c, from, _) => Hidden(db, t) && HasColumn(db, t, c) && TableAt(db, t).columns[c].typ == from
    case IndexCreate(t, keys, name) =>
      KeysOnTable(db, t, keys) && (t.schema, Named(cfg, name, "idx", t.table, keys)) !in db.indexes
    case IndexDrop(t, objectName) => (t.schema, objectName) in db.indexes
    case UniqueAdd(t, keys, name) =>
      KeysOnTable(db, t, keys) && (db.names[t], Named(cfg, name, "uniq", t.table, keys)) !in db.constraints
    case ConstraintDrop(t, objectName) => Exists(db, t) && (db.names[t], objectName) in db.constraints
    case ForeignKeyAdd(t, keys, references, referenced, onUpdate, onDelete, name) =>
      && KeysOnTable(db, t, keys) && KeysOnTable(db, references, referenced)
      && (db.names[t], Named(cfg, name, "fkey", t.table, keys)) !in db.constraints
      && (onUpdate in {Cascade, SetNull} || onDelete in {Cascade, SetNull} ==> Hidden(db, t) && Hidden(db, references))
    case RlsEnable(t) => Exists(db, t)
    case RlsDisable(t) => Hidden(db, t) && Exists(db, t)
    case PolicyCreate(t, c, template) =>
      HasColumn(db, t, c) && (db.names[t], PolicyName(cfg.hash, t.table, c, template)) !in db.policies
    case PolicyRemove(t, c, template) =>
      Exists(db, t) && (db.names[t], PolicyName(cfg.hash, t.table, c, template)) in db.policies
    case Expose(t, alias, readable, insertable, updatable) =>
      && Hidden(db, t) && Exists(db, t) && TableAt(db, t).rowSecurity && TableAt(db, t).forced
      && NothingRewrites(db, db.names[t]) && PolicyReaches(db, db.names[t], cfg.runtimeRole)
      && t.schema in db.schemas && AliasFree(db, t, alias)
      && KeysOnTable(db, t, readable) && KeysOnTable(db, t, insertable) && KeysOnTable(db, t, updatable)
    case Unexpose(t) =>
      Exists(db, t) && forall g <- db.grants | g.table == db.names[t] && g.role == cfg.runtimeRole :: g.byAdmin
  }

  // ---------- the plans ----------

  lemma OneRuns(stmt: Stmt, db: Db)
    ensures ApplyAll([stmt], db) == Apply(stmt, db)
  {
    assert [] + [stmt] == [stmt];
    ApplyAllAppend([], stmt, db);
  }

  lemma TwoRun(first: Stmt, second: Stmt, db: Db)
    ensures ApplyAll([first, second], db)
         == if Apply(first, db).None? then None else Apply(second, Apply(first, db).value)
  {
    assert [first, second] == [first] + [second];
    OneRuns(first, db);
    ApplyAllAppend([first], second, db);
  }

  lemma ThreeRun(first: Stmt, second: Stmt, third: Stmt, db: Db)
    ensures ApplyAll([first, second, third], db)
         == if ApplyAll([first, second], db).None? then None else Apply(third, ApplyAll([first, second], db).value)
  {
    assert [first, second, third] == [first, second] + [third];
    ApplyAllAppend([first, second], third, db);
  }

  lemma GuardRuns(t: Target, stmt: Stmt, db: Db)
    ensures ApplyAll([AssertNotExposed(t), stmt], db) == if Hidden(db, t) then Apply(stmt, db) else None
  {
    TwoRun(AssertNotExposed(t), stmt, db);
  }

  // ---------- table commands ----------

  lemma {:induction false} NewColumnsAre(specs: seq<ColumnSpec>)
    requires forall i, j | 0 <= i < j < |specs| :: specs[i].name != specs[j].name
    ensures forall c :: c in NewColumns(specs) <==> exists i | 0 <= i < |specs| :: specs[i].name == c
    ensures forall i | 0 <= i < |specs| ::
              && specs[i].name in NewColumns(specs)
              && NewColumns(specs)[specs[i].name] == Column(i + 1, specs[i].typ, specs[i].nullable, specs[i].default)
  {
    if specs != [] {
      NewColumnsAre(specs[..|specs| - 1]);
    }
  }

  lemma TableKeyIs(columns: seq<ColumnSpec>)
    ensures IsTableKey(PrimaryKey(PrimaryKeyColumns([ID_COLUMN] + columns)), columns)
    ensures 1 in PrimaryKeyColumns([ID_COLUMN] + columns)
  {
    var specs := [ID_COLUMN] + columns;
    assert specs[0] == ID_COLUMN && forall i | 0 <= i < |columns| :: specs[i + 1] == columns[i];
    forall n ensures n in PrimaryKeyColumns(specs)
                     <==> n == 1 || exists i | 0 <= i < |columns| :: columns[i].primaryKey && n == i + 2
    {
      if n in PrimaryKeyColumns(specs) && n != 1 {
        assert columns[n - 2] == specs[n - 1];
      }
    }
  }

  lemma CreateDoes(t: Target, columns: seq<ColumnSpec>, db: Db)
    requires ValidColumns([ID_COLUMN] + columns)
    ensures var result := Apply(CreateTable(t, [ID_COLUMN] + columns), db);
            && (result.Some? <==> t.schema in db.schemas && t !in db.names)
            && (result.Some? ==> TableCreated(db, result.value, t, columns))
  {
    TableKeyIs(columns);
    if t.schema in db.schemas && t !in db.names {
      CreatedIs(t, [ID_COLUMN] + columns, db);
      NewColumnsAre([ID_COLUMN] + columns);
    }
  }

  lemma CreatedIs(t: Target, specs: seq<ColumnSpec>, db: Db)
    requires t.schema in db.schemas && t !in db.names && PrimaryKeyColumns(specs) != {}
    ensures var result := Apply(CreateTable(t, specs), db);
            var oid, key := db.nextOid, (db.nextOid, t.table + "_pkey");
            && result.Some? && var db' := result.value;
            && db' == db.(names := db'.names, tables := db'.tables, constraints := db'.constraints, nextOid := oid + 1)
            && Added(db.names, db'.names, t, oid)
            && Set(db.tables, db'.tables, oid) && db'.tables[oid] == Table(NewColumns(specs), |specs| + 1, false, false)
            && Set(db.constraints, db'.constraints, key) && db'.constraints[key] == PrimaryKey(PrimaryKeyColumns(specs))
  {
  }

  lemma RenameDoes(t: Target, newName: string, db: Db)
    ensures var result := Apply(RenameTable(t, newName), db);
            && (result.Some? <==> Exists(db, t) && Target(t.schema, newName) !in db.names)
            && (result.Some? ==> TableRenamed(db, result.value, t, newName))
  {
  }

  lemma UnreferencedMeans(db: Db, oid: Oid)
    ensures Unreferenced(db, oid) <==> !ReferencedByOther(db, oid)
  {
  }

  lemma DropDoes(t: Target, db: Db)
    ensures var result := Apply(DropTable(t), db);
            && (result.Some? <==> Exists(db, t) && Unreferenced(db, db.names[t]))
            && (result.Some? ==> TableDropped(db, result.value, t))
  {
    if Exists(db, t) {
      UnreferencedMeans(db, db.names[t]);
      DroppedIs(t, db);
    }
  }

  lemma DroppedIs(t: Target, db: Db)
    requires Exists(db, t)
    ensures var result := ApplyDropTable(db, t); result.Some? ==> TableDropped(db, result.value, t)
  {
    OwnDroppedIs(t, db);
  }

  lemma OwnDroppedIs(t: Target, db: Db)
    requires Exists(db, t)
    ensures var result := ApplyDropTable(db, t); result.Some? ==> OwnObjectsGone(db, result.value, db.names[t])
  {
  }

  // ---------- column commands ----------

  lemma AddDoes(t: Target, spec: ColumnSpec, db: Db)
    ensures var result := Apply(AddColumn(t, spec), db);
            && (result.Some? <==> Exists(db, t) && spec.name !in TableAt(db, t).columns)
            && (result.Some? ==> ColumnAdded(db, result.value, t, spec))
  {
  }

  lemma RenameGrantsAre(grants: set<Grant>, oid: Oid, c: string, newName: string)
    requires c != newName
    ensures var renamed := set g | g in grants :: RenameGrant(g, oid, c, newName);
            && (forall g: Grant | !(g.table == oid && g.kind.ColumnGrant?) :: g in renamed <==> g in grants)
            && (forall role, p, d, own ::
                  Grant(oid, role, ColumnGrant(p, d), own) in renamed <==>
                    || (d != c && Grant(oid, role, ColumnGrant(p, d), own) in grants)
                    || (d == newName && Grant(oid, role, ColumnGrant(p, c), own) in grants))
  {
    var renamed := set g | g in grants :: RenameGrant(g, oid, c, newName);
    forall g: Grant | !(g.table == oid && g.kind.ColumnGrant?) ensures g in renamed <==> g in grants {
      assert RenameGrant(g, oid, c, newName) == g;
    }
    forall role, p, d, own
      ensures Grant(oid, role, ColumnGrant(p, d), own) in renamed <==>
                || (d != c && Grant(oid, role, ColumnGrant(p, d), own) in grants)
                || (d == newName && Grant(oid, role, ColumnGrant(p, c), own) in grants)
    {
      var here, there := Grant(oid, role, ColumnGrant(p, d), own), Grant(oid, role, ColumnGrant(p, c), own);
      assert d != c ==> RenameGrant(here, oid, c, newName) == here;
      assert d == newName ==> RenameGrant(there, oid, c, newName) == here;
    }
  }

  lemma RenameColumnDoes(t: Target, c: string, newName: string, db: Db)
    ensures var result := Apply(RenameColumn(t, c, newName), db);
            && (result.Some? <==> HasColumn(db, t, c) && newName !in TableAt(db, t).columns)
            && (result.Some? ==> ColumnRenamed(db, result.value, t, c, newName))
  {
    if Apply(RenameColumn(t, c, newName), db).Some? {
      RenameGrantsAre(db.grants, db.names[t], c, newName);
    }
  }

  lemma FreeMeans(db: Db, oid: Oid, attnum: nat)
    ensures Free(db, oid, attnum) <==> !ColumnReferenced(db, oid, attnum) && !ColumnInPolicy(db, oid, attnum)
  {
  }

  lemma DropColumnDoes(t: Target, c: string, db: Db)
    ensures var result := Apply(DropColumn(t, c), db);
            && (result.Some? <==> HasColumn(db, t, c) && Free(db, db.names[t], TableAt(db, t).columns[c].attnum))
            && (result.Some? ==> ColumnDropped(db, result.value, t, c))
  {
    if HasColumn(db, t, c) {
      FreeMeans(db, db.names[t], TableAt(db, t).columns[c].attnum);
      ColumnDroppedIs(t, c, db);
    }
  }

  lemma ColumnDroppedIs(t: Target, c: string, db: Db)
    requires HasColumn(db, t, c)
    ensures var result := ApplyDropColumn(db, t, c); result.Some? ==> ColumnDropped(db, result.value, t, c)
  {
  }

  lemma BecomesDoes(db: Db, t: Target, c: string, value: Column)
    requires HasColumn(db, t, c)
    ensures ColumnBecame(db, SetColumn(db, t, c, value), t, c, value)
  {
  }

  lemma DefaultDoes(t: Target, c: string, typ: ColumnType, default: Default, db: Db)
    ensures var result := Apply(SetDefault(t, c, typ, default), db);
            && (result.Some? <==> HasColumn(db, t, c))
            && (result.Some? ==> ColumnBecame(db, result.value, t, c, TableAt(db, t).columns[c].(default := default)))
  {
    if HasColumn(db, t, c) {
      BecomesDoes(db, t, c, TableAt(db, t).columns[c].(default := default));
    }
  }

  lemma NoDefaultDoes(t: Target, c: string, db: Db)
    ensures var result := Apply(DropDefault(t, c), db);
            && (result.Some? <==> HasColumn(db, t, c))
            && (result.Some? ==> ColumnBecame(db, result.value, t, c, TableAt(db, t).columns[c].(default := NoDefault)))
  {
    if HasColumn(db, t, c) {
      BecomesDoes(db, t, c, TableAt(db, t).columns[c].(default := NoDefault));
    }
  }

  lemma NullableDoes(t: Target, c: string, nullable: bool, db: Db)
    ensures var result := Apply(if nullable then DropNotNull(t, c) else SetNotNull(t, c), db);
            && (result.Some? <==> HasColumn(db, t, c))
            && (result.Some? ==> ColumnBecame(db, result.value, t, c, TableAt(db, t).columns[c].(nullable := nullable)))
  {
    if HasColumn(db, t, c) {
      BecomesDoes(db, t, c, TableAt(db, t).columns[c].(nullable := nullable));
    }
  }

  lemma TypeDoes(t: Target, c: string, typ: ColumnType, db: Db)
    ensures var result := Apply(AlterColumnType(t, c, typ), db);
            && (result.Some? <==> HasColumn(db, t, c))
            && (result.Some? ==> ColumnBecame(db, result.value, t, c, TableAt(db, t).columns[c].(typ := typ)))
  {
    if HasColumn(db, t, c) {
      BecomesDoes(db, t, c, TableAt(db, t).columns[c].(typ := typ));
    }
  }

  lemma TypeChangeRuns(t: Target, c: string, from: ColumnType, to: ColumnType, db: Db)
    ensures ApplyAll([AssertNotExposed(t), AssertColumnType(t, c, from), AlterColumnType(t, c, to)], db)
         == if Hidden(db, t) && HasColumn(db, t, c) && TableAt(db, t).columns[c].typ == from
            then Apply(AlterColumnType(t, c, to), db) else None
  {
    ThreeRun(AssertNotExposed(t), AssertColumnType(t, c, from), AlterColumnType(t, c, to), db);
    GuardRuns(t, AssertColumnType(t, c, from), db);
  }

  // ---------- constraints, indexes and policies ----------

  lemma AttnumsAre(table: Table, keys: seq<string>)
    requires forall c <- keys :: c in table.columns
    ensures Numbers(table, keys, Attnums(table, keys))
  {
  }

  lemma IndexDoes(t: Target, name: string, keys: seq<string>, db: Db)
    ensures var result := Apply(CreateIndex(t, name, keys), db);
            && (result.Some? <==> KeysOnTable(db, t, keys) && (t.schema, name) !in db.indexes)
            && (result.Some? ==>
                  && result.value == db.(indexes := result.value.indexes)
                  && exists attnums :: Numbers(TableAt(db, t), keys, attnums)
                       && Added(db.indexes, result.value.indexes, (t.schema, name), Index(db.names[t], attnums)))
  {
    if KeysOnTable(db, t, keys) && (t.schema, name) !in db.indexes {
      AttnumsAre(TableAt(db, t), keys);
      var attnums := Attnums(TableAt(db, t), keys);
      var db' := Apply(CreateIndex(t, name, keys), db).value;
      assert Added(db.indexes, db'.indexes, (t.schema, name), Index(db.names[t], attnums));
    }
  }

  lemma UniqueDoes(t: Target, name: string, keys: seq<string>, db: Db)
    ensures var result := Apply(AddUnique(t, name, keys), db);
            && (result.Some? <==> KeysOnTable(db, t, keys) && (db.names[t], name) !in db.constraints)
            && (result.Some? ==>
                  && result.value == db.(constraints := result.value.constraints)
                  && exists attnums :: Numbers(TableAt(db, t), keys, attnums)
                       && Added(db.constraints, result.value.constraints, (db.names[t], name), Unique(attnums)))
  {
    if KeysOnTable(db, t, keys) && (db.names[t], name) !in db.constraints {
      AttnumsAre(TableAt(db, t), keys);
      var attnums := Attnums(TableAt(db, t), keys);
      var db' := Apply(AddUnique(t, name, keys), db).value;
      assert Added(db.constraints, db'.constraints, (db.names[t], name), Unique(attnums));
    }
  }

  lemma ForeignKeyDoes(t: Target, name: string, keys: seq<string>, references: Target, referenced: seq<string>,
                       onUpdate: KeyAction, onDelete: KeyAction, db: Db)
    ensures var result := Apply(AddForeignKey(t, name, keys, references, referenced, onUpdate, onDelete), db);
            && (result.Some? <==>
                  KeysOnTable(db, t, keys) && KeysOnTable(db, references, referenced)
                  && (db.names[t], name) !in db.constraints)
            && (result.Some? ==>
                  && result.value == db.(constraints := result.value.constraints)
                  && exists own, others :: Numbers(TableAt(db, t), keys, own) && Numbers(TableAt(db, references), referenced, others)
                       && Added(db.constraints, result.value.constraints, (db.names[t], name),
                                ForeignKey(own, db.names[references], others, onUpdate, onDelete)))
  {
    if KeysOnTable(db, t, keys) && KeysOnTable(db, references, referenced) && (db.names[t], name) !in db.constraints {
      AttnumsAre(TableAt(db, t), keys);
      AttnumsAre(TableAt(db, references), referenced);
      var own, others := Attnums(TableAt(db, t), keys), Attnums(TableAt(db, references), referenced);
      var db' := Apply(AddForeignKey(t, name, keys, references, referenced, onUpdate, onDelete), db).value;
      assert Added(db.constraints, db'.constraints, (db.names[t], name),
                   ForeignKey(own, db.names[references], others, onUpdate, onDelete));
    }
  }

  lemma EnableRuns(t: Target, db: Db)
    ensures var on := ApplyAll([EnableRowSecurity(t), ForceRowSecurity(t)], db);
            (on.Some? <==> Exists(db, t)) && (on.Some? ==> SecurityBecame(db, on.value, t, true, true))
  {
    TwoRun(EnableRowSecurity(t), ForceRowSecurity(t), db);
  }

  lemma DisableRuns(t: Target, db: Db)
    ensures var off := ApplyAll([AssertNotExposed(t), NoForceRowSecurity(t), DisableRowSecurity(t)], db);
            (off.Some? <==> Hidden(db, t) && Exists(db, t)) && (off.Some? ==> SecurityBecame(db, off.value, t, false, false))
  {
    ThreeRun(AssertNotExposed(t), NoForceRowSecurity(t), DisableRowSecurity(t), db);
    GuardRuns(t, NoForceRowSecurity(t), db);
  }

  lemma CreatePolicyDoes(t: Target, name: string, c: string, template: Template, role: string, db: Db)
    ensures var result := Apply(CreatePolicy(t, name, c, template, role), db);
            && (result.Some? <==> HasColumn(db, t, c) && (db.names[t], name) !in db.policies)
            && (result.Some? ==>
                  && result.value == db.(policies := result.value.policies)
                  && Added(db.policies, result.value.policies, (db.names[t], name),
                           Policy(template, TableAt(db, t).columns[c].attnum, {role})))
  {
  }

  lemma DropPolicyDoes(t: Target, name: string, db: Db)
    ensures var result := Apply(DropPolicy(t, name), db);
            && (result.Some? <==> Exists(db, t) && (db.names[t], name) in db.policies)
            && (result.Some? ==>
                  && result.value == db.(policies := result.value.policies)
                  && Kept(db.policies, result.value.policies, (k: (Oid, string)) => k != (db.names[t], name)))
  {
  }

  lemma DropConstraintDoes(t: Target, name: string, db: Db)
    ensures var result := Apply(DropConstraint(t, name), db);
            && (result.Some? <==> Exists(db, t) && (db.names[t], name) in db.constraints)
            && (result.Some? ==>
                  && result.value == db.(constraints := result.value.constraints)
                  && Kept(db.constraints, result.value.constraints, (k: (Oid, string)) => k != (db.names[t], name)))
  {
  }

  lemma DropIndexDoes(schema: string, name: string, db: Db)
    ensures var result := Apply(DropIndex(schema, name), db);
            && (result.Some? <==> (schema, name) in db.indexes)
            && (result.Some? ==>
                  && result.value == db.(indexes := result.value.indexes)
                  && Kept(db.indexes, result.value.indexes, (k: (string, string)) => k != (schema, name)))
  {
  }

  // ---------- exposing ----------

  lemma {:induction false} JoinRuns(first: seq<Stmt>, second: seq<Stmt>, db: Db)
    ensures ApplyAll(first + second, db)
         == if ApplyAll(first, db).None? then None else ApplyAll(second, ApplyAll(first, db).value)
  {
    if first == [] {
      assert first + second == second;
    } else {
      assert (first + second)[0] == first[0] && (first + second)[1..] == first[1..] + second;
      if Apply(first[0], db).Some? {
        JoinRuns(first[1..], second, Apply(first[0], db).value);
      }
    }
  }

  function ColumnSet(oid: Oid, role: string, privilege: Privilege, columns: seq<string>): set<Grant> {
    set c | c in columns :: Grant(oid, role, ColumnGrant(privilege, c), true)
  }

  lemma ColumnGrantsRun(t: Target, privilege: Privilege, columns: seq<string>, role: string, db: Db)
    requires Exists(db, t)
    ensures ApplyAll(ColumnGrants(t, privilege, columns, role), db)
         == if KeysOnTable(db, t, columns) then Some(db.(grants := db.grants + ColumnSet(db.names[t], role, privilege, columns)))
            else None
  {
    if columns == [] {
      assert db.grants + ColumnSet(db.names[t], role, privilege, columns) == db.grants;
    } else {
      OneRuns(GrantColumns(t, privilege, columns, role), db);
    }
  }

  /** The column grants of an expose. */
  function GrantStmts(t: Target, readable: seq<string>, insertable: seq<string>, updatable: seq<string>, role: string): seq<Stmt> {
    ColumnGrants(t, SelectPrivilege, readable, role)
    + (ColumnGrants(t, InsertPrivilege, insertable, role) + ColumnGrants(t, UpdatePrivilege, updatable, role))
  }

  lemma ThreeGrantsRun(t: Target, readable: seq<string>, insertable: seq<string>, updatable: seq<string>, role: string, db: Db)
    requires Exists(db, t)
    ensures var oid := db.names[t];
            ApplyAll(GrantStmts(t, readable, insertable, updatable, role), db)
            == if KeysOnTable(db, t, readable) && KeysOnTable(db, t, insertable) && KeysOnTable(db, t, updatable)
               then Some(db.(grants := db.grants + ColumnSet(oid, role, SelectPrivilege, readable)
                                       + ColumnSet(oid, role, InsertPrivilege, insertable)
                                       + ColumnSet(oid, role, UpdatePrivilege, updatable)))
               else None
  {
    var selects, inserts, updates := ColumnGrants(t, SelectPrivilege, readable, role),
      ColumnGrants(t, InsertPrivilege, insertable, role), ColumnGrants(t, UpdatePrivilege, updatable, role);
    JoinRuns(selects, inserts + updates, db);
    ColumnGrantsRun(t, SelectPrivilege, readable, role, db);
    if KeysOnTable(db, t, readable) {
      var db1 := ApplyAll(selects, db).value;
      JoinRuns(inserts, updates, db1);
      ColumnGrantsRun(t, InsertPrivilege, insertable, role, db1);
      if KeysOnTable(db, t, insertable) {
        ColumnGrantsRun(t, UpdatePrivilege, updatable, role, ApplyAll(inserts, db1).value);
      }
    }
  }

  lemma ExposableMeans(db: Db, t: Target, role: string)
    ensures Exposable(db, t, role) <==>
      && Hidden(db, t) && Exists(db, t) && TableAt(db, t).rowSecurity && TableAt(db, t).forced
      && NothingRewrites(db, db.names[t]) && PolicyReaches(db, db.names[t], role)
  {
    if Exists(db, t) {
      RewritesMeans(db, db.names[t]);
      ReachesMeans(db, db.names[t], role);
    }
  }

  lemma RewritesMeans(db: Db, oid: Oid)
    ensures Cascaded(db, oid) <==> !NothingRewrites(db, oid)
  {
  }

  lemma ReachesMeans(db: Db, oid: Oid, role: string)
    ensures HasPolicyFor(db, oid, role) <==> PolicyReaches(db, oid, role)
  {
    var reached := {"public", role} + (if role in db.members then db.members[role] else {});
    forall k <- db.policies ensures AppliesTo(db, db.policies[k], role) <==> reached * db.policies[k].roles != {} {
      if AppliesTo(db, db.policies[k], role) {
        var r :| r in db.policies[k].roles && r in reached;
        assert r in reached * db.policies[k].roles;
      }
      if r :| r in reached * db.policies[k].roles {
        assert r in db.policies[k].roles;
      }
    }
  }

  lemma GuardAndUsage(t: Target, role: string, db: Db)
    ensures ApplyAll([AssertExposable(t, role), GrantUsage(t.schema, role)], db)
         == if Exposable(db, t, role) && t.schema in db.schemas then Some(db.(usage := db.usage + {(t.schema, role)}))
            else None
  {
    TwoRun(AssertExposable(t, role), GrantUsage(t.schema, role), db);
  }

  function Started(t: Target, role: string, db: Db): Db
    requires Exists(db, t)
  {
    db.(usage := db.usage + {(t.schema, role)}, grants := db.grants + {Grant(db.names[t], role, DeleteGrant, true)})
  }

  lemma ExposeStarts(t: Target, role: string, db: Db)
    ensures ApplyAll([AssertExposable(t, role), GrantUsage(t.schema, role), GrantDelete(t, role)], db)
         == if Exposable(db, t, role) && t.schema in db.schemas then Some(Started(t, role, db)) else None
  {
    ThreeRun(AssertExposable(t, role), GrantUsage(t.schema, role), GrantDelete(t, role), db);
    GuardAndUsage(t, role, db);
  }

  /** The guard, USAGE and DELETE, then the rest. */
  lemma ExposeGoesOn(t: Target, role: string, rest: seq<Stmt>, db: Db)
    ensures ApplyAll([AssertExposable(t, role), GrantUsage(t.schema, role), GrantDelete(t, role)] + rest, db)
         == if Exposable(db, t, role) && t.schema in db.schemas then ApplyAll(rest, Started(t, role, db)) else None
  {
    JoinRuns([AssertExposable(t, role), GrantUsage(t.schema, role), GrantDelete(t, role)], rest, db);
    ExposeStarts(t, role, db);
  }

  lemma ExposeParts(cfg: Config, t: Target, alias: string, readable: seq<string>, insertable: seq<string>, updatable: seq<string>)
    ensures var role := cfg.runtimeRole;
            ExposePlan(cfg, t, alias, readable, insertable, updatable)
            == [AssertExposable(t, role), GrantUsage(t.schema, role), GrantDelete(t, role)]
               + (GrantStmts(t, readable, insertable, updatable, role) + [MarkExposed(alias, t)])
  {
  }

  /** All the grants of an expose together. */
  function Handed(oid: Oid, role: string, readable: seq<string>, insertable: seq<string>, updatable: seq<string>): set<Grant> {
    {Grant(oid, role, DeleteGrant, true)} + ColumnSet(oid, role, SelectPrivilege, readable)
    + ColumnSet(oid, role, InsertPrivilege, insertable) + ColumnSet(oid, role, UpdatePrivilege, updatable)
  }

  lemma HandedIsContracted(oid: Oid, role: string, readable: seq<string>, insertable: seq<string>, updatable: seq<string>, g: Grant)
    ensures g in Handed(oid, role, readable, insertable, updatable)
            <==> Contracted(g, oid, role, readable, insertable, updatable)
  {
  }

  /** The conditions of the guard, and those of the statements behind it. */
  ghost predicate Admits(cfg: Config, t: Target, alias: string, readable: seq<string>, insertable: seq<string>,
                         updatable: seq<string>, db: Db)
  {
    && Exposable(db, t, cfg.runtimeRole) && t.schema in db.schemas
    && KeysOnTable(db, t, readable) && KeysOnTable(db, t, insertable) && KeysOnTable(db, t, updatable)
    && AliasFree(db, t, alias)
  }

  lemma ExposeRuns(cfg: Config, t: Target, alias: string, readable: seq<string>, insertable: seq<string>, updatable: seq<string>, db: Db)
    ensures var role := cfg.runtimeRole;
            ApplyAll(ExposePlan(cfg, t, alias, readable, insertable, updatable), db)
            == if Admits(cfg, t, alias, readable, insertable, updatable, db)
               then Some(db.(usage := db.usage + {(t.schema, role)},
                             grants := db.grants + Handed(db.names[t], role, readable, insertable, updatable),
                             registry := db.registry[t := Row(alias, true)]))
               else None
  {
    var role := cfg.runtimeRole;
    ExposeParts(cfg, t, alias, readable, insertable, updatable);
    ExposeGoesOn(t, role, GrantStmts(t, readable, insertable, updatable, role) + [MarkExposed(alias, t)], db);
    if Exposable(db, t, role) && t.schema in db.schemas {
      GrantsAndMark(t, alias, readable, insertable, updatable, role, Started(t, role, db));
      HandedParts(db.grants, db.names[t], role, readable, insertable, updatable);
    }
  }

  lemma HandedParts(grants: set<Grant>, oid: Oid, role: string, readable: seq<string>, insertable: seq<string>, updatable: seq<string>)
    ensures grants + {Grant(oid, role, DeleteGrant, true)} + ColumnSet(oid, role, SelectPrivilege, readable)
            + ColumnSet(oid, role, InsertPrivilege, insertable) + ColumnSet(oid, role, UpdatePrivilege, updatable)
         == grants + Handed(oid, role, readable, insertable, updatable)
  {
  }

  lemma MarkDoes(t: Target, alias: string, db: Db)
    ensures Apply(MarkExposed(alias, t), db)
         == if AliasFree(db, t, alias) then Some(db.(registry := db.registry[t := Row(alias, true)])) else None
  {
  }

  lemma UnmarkDoes(t: Target, db: Db)
    ensures var result := Apply(MarkUnexposed(t), db);
            && result.Some? && result.value == db.(registry := result.value.registry)
            && result.value.registry.Keys == db.registry.Keys
            && forall u <- db.registry ::
                 result.value.registry[u] == if u == t then Row(db.registry[u].alias, false) else db.registry[u]
  {
  }

  lemma GrantsAndMark(t: Target, alias: string, readable: seq<string>, insertable: seq<string>, updatable: seq<string>,
                      role: string, db: Db)
    requires Exists(db, t)
    ensures var oid := db.names[t];
            ApplyAll(GrantStmts(t, readable, insertable, updatable, role) + [MarkExposed(alias, t)], db)
            == if KeysOnTable(db, t, readable) && KeysOnTable(db, t, insertable) && KeysOnTable(db, t, updatable)
                  && AliasFree(db, t, alias)
               then Some(db.(grants := db.grants + ColumnSet(oid, role, SelectPrivilege, readable)
                                       + ColumnSet(oid, role, InsertPrivilege, insertable)
                                       + ColumnSet(oid, role, UpdatePrivilege, updatable),
                             registry := db.registry[t := Row(alias, true)]))
               else None
  {
    var grants := GrantStmts(t, readable, insertable, updatable, role);
    ThreeGrantsRun(t, readable, insertable, updatable, role, db);
    ApplyAllAppend(grants, MarkExposed(alias, t), db);
    if ApplyAll(grants, db).Some? {
      MarkDoes(t, alias, ApplyAll(grants, db).value);
    }
  }

  lemma ExposeDoes(cfg: Config, t: Target, alias: string, readable: seq<string>, insertable: seq<string>, updatable: seq<string>, db: Db)
    ensures var result := ApplyAll(ExposePlan(cfg, t, alias, readable, insertable, updatable), db);
            && (result.Some? <==> Possible(cfg, Expose(t, alias, readable, insertable, updatable), db))
            && (result.Some? ==> TableExposed(db, result.value, t, cfg.runtimeRole, alias, readable, insertable, updatable))
  {
    ExposeRuns(cfg, t, alias, readable, insertable, updatable, db);
    ExposableMeans(db, t, cfg.runtimeRole);
    if Admits(cfg, t, alias, readable, insertable, updatable, db) {
      forall g: Grant ensures g in Handed(db.names[t], cfg.runtimeRole, readable, insertable, updatable)
                              <==> Contracted(g, db.names[t], cfg.runtimeRole, readable, insertable, updatable)
      {
        HandedIsContracted(db.names[t], cfg.runtimeRole, readable, insertable, updatable, g);
      }
    }
  }

  lemma UnexposeDoes(cfg: Config, t: Target, db: Db)
    ensures var result := ApplyAll(UnexposePlan(cfg, t), db);
            && (result.Some? <==> Possible(cfg, Unexpose(t), db))
            && (result.Some? ==> TableUnexposed(db, result.value, t, cfg.runtimeRole))
  {
    ThreeRun(Revoke(t, cfg.runtimeRole), AssertRevoked(t, cfg.runtimeRole), MarkUnexposed(t), db);
    RevokeChecked(t, cfg.runtimeRole, db);
    var checked := ApplyAll([Revoke(t, cfg.runtimeRole), AssertRevoked(t, cfg.runtimeRole)], db);
    if checked.Some? {
      UnmarkDoes(t, checked.value);
    }
  }

  /** Every grant of the role goes, and none must have been another role's. */
  lemma RevokeChecked(t: Target, role: string, db: Db)
    ensures ApplyAll([Revoke(t, role), AssertRevoked(t, role)], db)
         == if Exists(db, t) && (forall g <- db.grants | g.table == db.names[t] && g.role == role :: g.byAdmin)
            then Some(db.(grants := set g | g in db.grants && !(g.table == db.names[t] && g.role == role)))
            else None
  {
    TwoRun(Revoke(t, role), AssertRevoked(t, role), db);
    if Exists(db, t) {
      RevokeLeaves(db, t, role);
    }
  }

  lemma RevokeLeaves(db: Db, t: Target, role: string)
    requires Exists(db, t)
    ensures var oid := db.names[t];
            var left := set g | g in db.grants && !(g.table == oid && g.role == role && g.byAdmin);
            && (HoldsPrivilege(db.(grants := left), oid, role)
                <==> !forall g <- db.grants | g.table == oid && g.role == role :: g.byAdmin)
            && (!HoldsPrivilege(db.(grants := left), oid, role) ==>
                  left == set g | g in db.grants && !(g.table == oid && g.role == role))
  {
    var oid := db.names[t];
    var left := set g | g in db.grants && !(g.table == oid && g.role == role && g.byAdmin);
    if g :| g in db.grants && g.table == oid && g.role == role && !g.byAdmin {
      assert g in left;
    }
  }

  // ---------- the theorem ----------

  /** A command's plan goes through exactly when it is possible, and then does what the command says. */
  ghost predicate Works(cfg: Config, command: Command, db: Db) {
    Compile(cfg, command).Some? ==>
      var result := ApplyAll(Compile(cfg, command).value, db);
      (result.Some? <==> Possible(cfg, command, db)) && (result.Some? ==> Done(cfg, command, db, result.value))
  }

  lemma TableCommandWorks(cfg: Config, command: Command, db: Db)
    requires command.TableCreate? || command.TableRename? || command.TableDrop?
    ensures Works(cfg, command, db)
  {
    if Compile(cfg, command).Some? {
      match command
      case TableCreate(t, columns) =>
        OneRuns(CreateTable(t, [ID_COLUMN] + columns), db);
        CreateDoes(t, columns, db);
      case TableRename(t, newName) =>
        GuardRuns(t, RenameTable(t, newName), db);
        RenameDoes(t, newName, db);
      case TableDrop(t) =>
        GuardRuns(t, DropTable(t), db);
        DropDoes(t, db);
    }
  }

  lemma ColumnCommandWorks(cfg: Config, command: Command, db: Db)
    requires command.ColumnAdd? || command.ColumnRename? || command.ColumnDrop?
    ensures Works(cfg, command, db)
  {
    match command
    case ColumnAdd(t, spec) =>
      GuardRuns(t, AddColumn(t, spec), db);
      AddDoes(t, spec, db);
    case ColumnRename(t, c, newName) =>
      GuardRuns(t, RenameColumn(t, c, newName), db);
      RenameColumnDoes(t, c, newName, db);
    case ColumnDrop(t, c) =>
      GuardRuns(t, DropColumn(t, c), db);
      DropColumnDoes(t, c, db);
  }

  lemma DefaultCommandWorks(cfg: Config, command: Command, db: Db)
    requires command.DefaultSet? || command.DefaultDrop?
    ensures Works(cfg, command, db)
  {
    match command
    case DefaultSet(t, c, default, typ) =>
      GuardRuns(t, SetDefault(t, c, typ, default), db);
      DefaultDoes(t, c, typ, default, db);
    case DefaultDrop(t, c) =>
      GuardRuns(t, DropDefault(t, c), db);
      NoDefaultDoes(t, c, db);
  }

  lemma NullCommandWorks(cfg: Config, command: Command, db: Db)
    requires command.NotNullSet? || command.NotNullDrop?
    ensures Works(cfg, command, db)
  {
    match command
    case NotNullSet(t, c) =>
      GuardRuns(t, SetNotNull(t, c), db);
      NullableDoes(t, c, false, db);
    case NotNullDrop(t, c) =>
      GuardRuns(t, DropNotNull(t, c), db);
      NullableDoes(t, c, true, db);
  }

  lemma TypeCommandWorks(cfg: Config, command: Command, db: Db)
    requires command.TypeChange?
    ensures Works(cfg, command, db)
  {
    match command
    case TypeChange(t, c, from, to) =>
      TypeChangeRuns(t, c, from, to, db);
      TypeDoes(t, c, to, db);
  }

  lemma IndexCommandWorks(cfg: Config, command: Command, db: Db)
    requires command.IndexCreate? || command.IndexDrop? || command.ConstraintDrop?
    ensures Works(cfg, command, db)
  {
    match command
    case IndexCreate(t, keys, name) =>
      var objectName := Named(cfg, name, "idx", t.table, keys);
      OneRuns(CreateIndex(t, objectName, keys), db);
      IndexDoes(t, objectName, keys, db);
    case IndexDrop(t, objectName) =>
      OneRuns(DropIndex(t.schema, objectName), db);
      DropIndexDoes(t.schema, objectName, db);
    case ConstraintDrop(t, objectName) =>
      OneRuns(DropConstraint(t, objectName), db);
      DropConstraintDoes(t, objectName, db);
  }

  lemma UniqueCommandWorks(cfg: Config, command: Command, db: Db)
    requires command.UniqueAdd?
    ensures Works(cfg, command, db)
  {
    match command
    case UniqueAdd(t, keys, name) =>
      var objectName := Named(cfg, name, "uniq", t.table, keys);
      OneRuns(AddUnique(t, objectName, keys), db);
      UniqueDoes(t, objectName, keys, db);
  }

  lemma CascadeGuardsRun(t: Target, references: Target, onUpdate: KeyAction, onDelete: KeyAction, stmt: Stmt, db: Db)
    ensures ApplyAll(CascadeGuards(t, references, onUpdate, onDelete) + [stmt], db)
         == if onUpdate in {Cascade, SetNull} || onDelete in {Cascade, SetNull} ==> Hidden(db, t) && Hidden(db, references)
            then Apply(stmt, db) else None
  {
    ApplyAllAppend(CascadeGuards(t, references, onUpdate, onDelete), stmt, db);
    GuardRuns(t, AssertNotExposed(references), db);
  }

  lemma ForeignKeyCommandWorks(cfg: Config, command: Command, db: Db)
    requires command.ForeignKeyAdd?
    ensures Works(cfg, command, db)
  {
    match command
    case ForeignKeyAdd(t, keys, references, referenced, onUpdate, onDelete, name) =>
      var objectName := Named(cfg, name, "fkey", t.table, keys);
      CascadeGuardsRun(t, references, onUpdate, onDelete,
                       AddForeignKey(t, objectName, keys, references, referenced, onUpdate, onDelete), db);
      ForeignKeyDoes(t, objectName, keys, references, referenced, onUpdate, onDelete, db);
  }

  lemma SecurityCommandWorks(cfg: Config, command: Command, db: Db)
    requires command.RlsEnable? || command.RlsDisable?
    ensures Works(cfg, command, db)
  {
    match command
    case RlsEnable(t) => EnableRuns(t, db);
    case RlsDisable(t) => DisableRuns(t, db);
  }

  lemma PolicyCommandWorks(cfg: Config, command: Command, db: Db)
    requires command.PolicyCreate? || command.PolicyRemove?
    ensures Works(cfg, command, db)
  {
    match command
    case PolicyCreate(t, c, template) =>
      var name := PolicyName(cfg.hash, t.table, c, template);
      OneRuns(CreatePolicy(t, name, c, template, cfg.runtimeRole), db);
      CreatePolicyDoes(t, name, c, template, cfg.runtimeRole, db);
    case PolicyRemove(t, c, template) =>
      var name := PolicyName(cfg.hash, t.table, c, template);
      OneRuns(DropPolicy(t, name), db);
      DropPolicyDoes(t, name, db);
  }

  lemma ExposureCommandWorks(cfg: Config, command: Command, db: Db)
    requires command.Expose? || command.Unexpose?
    ensures Works(cfg, command, db)
  {
    match command
    case Expose(t, alias, readable, insertable, updatable) =>
      ExposeDoes(cfg, t, alias, readable, insertable, updatable, db);
    case Unexpose(t) => UnexposeDoes(cfg, t, db);
  }

  lemma EveryCommandWorks(cfg: Config, command: Command, db: Db)
    ensures Works(cfg, command, db)
  {
    match command
    case TableCreate(_, _) => TableCommandWorks(cfg, command, db);
    case TableRename(_, _) => TableCommandWorks(cfg, command, db);
    case TableDrop(_) => TableCommandWorks(cfg, command, db);
    case ColumnAdd(_, _) => ColumnCommandWorks(cfg, command, db);
    case ColumnRename(_, _, _) => ColumnCommandWorks(cfg, command, db);
    case ColumnDrop(_, _) => ColumnCommandWorks(cfg, command, db);
    case TypeChange(_, _, _, _) => TypeCommandWorks(cfg, command, db);
    case IndexCreate(_, _, _) => IndexCommandWorks(cfg, command, db);
    case IndexDrop(_, _) => IndexCommandWorks(cfg, command, db);
    case ConstraintDrop(_, _) => IndexCommandWorks(cfg, command, db);
    case UniqueAdd(_, _, _) => UniqueCommandWorks(cfg, command, db);
    case ForeignKeyAdd(_, _, _, _, _, _, _) => ForeignKeyCommandWorks(cfg, command, db);
    case RlsEnable(_) => SecurityCommandWorks(cfg, command, db);
    case RlsDisable(_) => SecurityCommandWorks(cfg, command, db);
    case PolicyCreate(_, _, _) => PolicyCommandWorks(cfg, command, db);
    case PolicyRemove(_, _, _) => PolicyCommandWorks(cfg, command, db);
    case Expose(_, _, _, _, _) => ExposureCommandWorks(cfg, command, db);
    case Unexpose(_) => ExposureCommandWorks(cfg, command, db);
    case DefaultSet(_, _, _, _) => DefaultCommandWorks(cfg, command, db);
    case DefaultDrop(_, _) => DefaultCommandWorks(cfg, command, db);
    case NotNullSet(_, _) => NullCommandWorks(cfg, command, db);
    case NotNullDrop(_, _) => NullCommandWorks(cfg, command, db);
  }
}
