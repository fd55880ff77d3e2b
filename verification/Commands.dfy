/**
 The typed commands of the schema services and the compiler that turns each into the
 statement list the executor runs.  `Compile` is `None` where the compiler throws.
*/
module Commands {
  import opened Common
  import opened Ddl

  /** What the compiled text depends on besides the command. `hash` renders a digest in hex. */
  datatype Config = Config(runtimeRole: string, hash: string -> string)

  /** The command object recorded in the history; the constructor is its command type. */
  datatype Command =
    | TableCreate(target: Target, columns: seq<ColumnSpec>)
    | TableRename(target: Target, newName: string)
    | TableDrop(target: Target)
    | ColumnAdd(target: Target, spec: ColumnSpec)
    | ColumnRename(target: Target, column: string, newName: string)
    | ColumnDrop(target: Target, column: string)
    | DefaultSet(target: Target, column: string, default: Default, typ: ColumnType)
    | DefaultDrop(target: Target, column: string)
    | NotNullSet(target: Target, column: string)
    | NotNullDrop(target: Target, column: string)
    | TypeChange(target: Target, column: string, fromType: ColumnType, toType: ColumnType)
    | IndexCreate(target: Target, keys: seq<string>, name: Option<string>)
    | IndexDrop(target: Target, objectName: string)
    | UniqueAdd(target: Target, keys: seq<string>, name: Option<string>)
    | ConstraintDrop(target: Target, objectName: string)
    | ForeignKeyAdd(target: Target, keys: seq<string>, references: Target, referenced: seq<string>,
                    onUpdate: KeyAction, onDelete: KeyAction, name: Option<string>)
    | RlsEnable(target: Target)
    | RlsDisable(target: Target)
    | PolicyCreate(target: Target, column: string, template: Template)
    | PolicyRemove(target: Target, column: string, template: Template)
    | Expose(target: Target, alias: string, readable: seq<string>, insertable: seq<string>, updatable: seq<string>)
    | Unexpose(target: Target)

  const MAX_IDENTIFIER_LENGTH := 63
  const MAX_KEY_COLUMNS := 16
  const HASH_PREFIX_LENGTH := 8

  // ---------- identifiers ----------

  predicate IdentifierStart(c: char) {
    'a' <= c <= 'z' || 'A' <= c <= 'Z' || c == '_'
  }

  predicate SimpleIdentifier(s: string) {
    && s != ""
    && IdentifierStart(s[0])
    && forall i | 0 <= i < |s| :: IdentifierStart(s[i]) || '0' <= s[i] <= '9'
  }

  predicate DdlName(s: string) {
    SimpleIdentifier(s) && |s| <= MAX_IDENTIFIER_LENGTH
  }

  predicate RegistryAlias(s: string) {
    && 1 <= |s| <= 63
    && 'a' <= s[0] <= 'z'
    && forall i | 0 <= i < |s| :: 'a' <= s[i] <= 'z' || s[i] == '_' || '0' <= s[i] <= '9'
  }

  function Lower(s: string): (r: string)
    ensures |r| == |s|
  {
    seq(|s|, i requires 0 <= i < |s| =>
      if 'A' <= s[i] <= 'Z' then (s[i] as int - 'A' as int + 'a' as int) as char else s[i])
  }

  predicate Manageable(schema: string) {
    var folded := Lower(schema);
    folded !in {"microjbase", "pg_catalog", "information_schema"} && !("pg_" <= folded)
  }

  predicate ManagedTarget(t: Target) {
    Manageable(t.schema) && SimpleIdentifier(t.schema) && SimpleIdentifier(t.table)
  }

  predicate Distinct<T(==)>(s: seq<T>) {
    forall i, j | 0 <= i < j < |s| :: s[i] != s[j]
  }

  predicate KeyColumns(columns: seq<string>) {
    && 1 <= |columns| <= MAX_KEY_COLUMNS
    && (forall c <- columns :: SimpleIdentifier(c))
    && Distinct(columns)
  }

  // ---------- deterministic names ----------

  function Join(parts: seq<string>, separator: string): string {
    if parts == [] then ""
    else if |parts| == 1 then parts[0]
    else parts[0] + separator + Join(parts[1..], separator)
  }

  /**
   The name given to a module-created object: readable, at most 63 characters, and always
   ending in the digest of the full identity.
  */
  function DeterministicObjectName(hash: string -> string, kind: string, table: string, columns: seq<string>)
    : (name: string)
    ensures 1 + |Digest(hash, kind, table, columns)| <= |name| <= MAX_IDENTIFIER_LENGTH
    ensures "_" + Digest(hash, kind, table, columns) == name[|name| - 1 - |Digest(hash, kind, table, columns)|..]
  {
    var digest := Digest(hash, kind, table, columns);
    var readable := "mjb_" + table + "_" + Join(columns, "_") + "_" + kind;
    var head := if |readable| + |digest| + 1 <= MAX_IDENTIFIER_LENGTH then readable
                else readable[..MAX_IDENTIFIER_LENGTH - |digest| - 1];
    head + "_" + digest
  }

  function Digest(hash: string -> string, kind: string, table: string, columns: seq<string>): (digest: string)
    ensures |digest| <= HASH_PREFIX_LENGTH
  {
    var full := hash(table + "\U{0}" + Join(columns, "\U{0}") + "\U{0}" + kind);
    if |full| <= HASH_PREFIX_LENGTH then full else full[..HASH_PREFIX_LENGTH]
  }

  function TemplateName(template: Template): string {
    match template
    case Read => "read"
    case Insert => "insert"
    case Update => "update"
    case Delete => "delete"
  }

  function PolicyName(hash: string -> string, table: string, column: string, template: Template): string {
    DeterministicObjectName(hash, TemplateName(template), table, [column])
  }

  function ObjectName(cfg: Config, name: Option<string>, kind: string, table: string, keys: seq<string>): string {
    if name.Some? then name.value else DeterministicObjectName(cfg.hash, kind, table, keys)
  }

  // ---------- defaults and types ----------

  predicate Whole(n: real) {
    n.Floor as real == n
  }

  const MAX_SAFE_INTEGER: real := 9007199254740991.0

  /** The kind and range checks on a literal default; the textual shapes are not modelled. */
  predicate LiteralFits(typ: ColumnType, value: Primitive) {
    match typ
    case Text => value.PString? && (forall i | 0 <= i < |value.s| :: value.s[i] != '\U{0}' && value.s[i] != '\\')
    case Integer => value.PNumber? && Whole(value.n) && -2147483648.0 <= value.n <= 2147483647.0
    case Bigint => value.PNumber? && Whole(value.n) && -MAX_SAFE_INTEGER <= value.n <= MAX_SAFE_INTEGER
    case Numeric => value.PNumber?
    case Boolean => value.PBoolean?
    case Uuid | Date | Timestamp | Timestamptz => value.PString?
    case Jsonb => true
  }

  predicate DefaultFits(typ: ColumnType, default: Default) {
    match default
    case NoDefault => true
    case Literal(value) => LiteralFits(typ, value)
    case CurrentTimestamp => typ == Timestamp || typ == Timestamptz
    case RandomUuid => typ == Uuid
  }

  /** The frozen safe conversion matrix. */
  predicate SafeConversion(from: ColumnType, to: ColumnType) {
    match from
    case Integer => to == Bigint || to == Numeric
    case Bigint => to == Numeric
    case Date => to == Timestamp
    case _ => false
  }

  // ---------- the compiler ----------

  const ID_COLUMN := ColumnSpec("id", Uuid, false, RandomUuid, true)

  predicate ValidColumns(specs: seq<ColumnSpec>) {
    && specs != []
    && (forall s <- specs :: SimpleIdentifier(s.name) && DefaultFits(s.typ, s.default))
    && (forall i, j | 0 <= i < j < |specs| :: specs[i].name != specs[j].name)
  }

  function Guarded(t: Target, stmt: Stmt): seq<Stmt> {
    [AssertNotExposed(t), stmt]
  }

  function CascadeGuards(t: Target, references: Target, onUpdate: KeyAction, onDelete: KeyAction): seq<Stmt> {
    if Rewrites(onUpdate) || Rewrites(onDelete) then [AssertNotExposed(t), AssertNotExposed(references)] else []
  }

  function ColumnGrants(t: Target, privilege: Privilege, columns: seq<string>, role: string): seq<Stmt> {
    if columns == [] then [] else [GrantColumns(t, privilege, columns, role)]
  }

  predicate GrantableColumns(columns: seq<string>) {
    columns == [] || KeyColumns(columns)
  }

  function ExposePlan(cfg: Config, t: Target, alias: string,
                      readable: seq<string>, insertable: seq<string>, updatable: seq<string>): seq<Stmt>
  {
    var role := cfg.runtimeRole;
    [AssertExposable(t, role), GrantUsage(t.schema, role), GrantDelete(t, role)]
    + ColumnGrants(t, SelectPrivilege, readable, role)
    + ColumnGrants(t, InsertPrivilege, insertable, role)
    + ColumnGrants(t, UpdatePrivilege, updatable, role)
    + [MarkExposed(alias, t)]
  }

  function UnexposePlan(cfg: Config, t: Target): seq<Stmt> {
    [Revoke(t, cfg.runtimeRole), AssertRevoked(t, cfg.runtimeRole), MarkUnexposed(t)]
  }

  function When(condition: bool, stmts: seq<Stmt>): Option<seq<Stmt>> {
    if condition then Some(stmts) else None
  }

  function Compile(cfg: Config, command: Command): Option<seq<Stmt>> {
    match command
    case TableCreate(t, columns) =>
      When(ManagedTarget(t) && ValidColumns([ID_COLUMN] + columns), [CreateTable(t, [ID_COLUMN] + columns)])
    case TableRename(t, newName) =>
      When(ManagedTarget(t) && SimpleIdentifier(newName), Guarded(t, RenameTable(t, newName)))
    case TableDrop(t) =>
      When(ManagedTarget(t), Guarded(t, DropTable(t)))
    case ColumnAdd(t, spec) =>
      When(ManagedTarget(t) && SimpleIdentifier(spec.name) && DefaultFits(spec.typ, spec.default),
           Guarded(t, AddColumn(t, spec)))
    case ColumnRename(t, c, newName) =>
      When(ManagedTarget(t) && SimpleIdentifier(c) && SimpleIdentifier(newName), Guarded(t, RenameColumn(t, c, newName)))
    case ColumnDrop(t, c) =>
      When(ManagedTarget(t) && SimpleIdentifier(c), Guarded(t, DropColumn(t, c)))
    case DefaultSet(t, c, default, typ) =>
      When(ManagedTarget(t) && SimpleIdentifier(c) && default != NoDefault && DefaultFits(typ, default),
           Guarded(t, SetDefault(t, c, typ, default)))
    case DefaultDrop(t, c) =>
      When(ManagedTarget(t) && SimpleIdentifier(c), Guarded(t, DropDefault(t, c)))
    case NotNullSet(t, c) =>
      When(ManagedTarget(t) && SimpleIdentifier(c), Guarded(t, SetNotNull(t, c)))
    case NotNullDrop(t, c) =>
      When(ManagedTarget(t) && SimpleIdentifier(c), Guarded(t, DropNotNull(t, c)))
    case TypeChange(t, c, from, to) =>
      When(ManagedTarget(t) && SimpleIdentifier(c) && SafeConversion(from, to),
           [AssertNotExposed(t), AssertColumnType(t, c, from), AlterColumnType(t, c, to)])
    case IndexCreate(t, keys, name) =>
      var objectName := ObjectName(cfg, name, "idx", t.table, keys);
      When(ManagedTarget(t) && KeyColumns(keys) && DdlName(objectName), [CreateIndex(t, objectName, keys)])
    case IndexDrop(t, objectName) =>
      When(Manageable(t.schema) && SimpleIdentifier(t.schema) && DdlName(objectName), [DropIndex(t.schema, objectName)])
    case UniqueAdd(t, keys, name) =>
      var objectName := ObjectName(cfg, name, "uniq", t.table, keys);
      When(ManagedTarget(t) && KeyColumns(keys) && DdlName(objectName), [AddUnique(t, objectName, keys)])
    case ConstraintDrop(t, objectName) =>
      When(ManagedTarget(t) && DdlName(objectName), [DropConstraint(t, objectName)])
    case ForeignKeyAdd(t, keys, references, referenced, onUpdate, onDelete, name) =>
      var objectName := ObjectName(cfg, name, "fkey", t.table, keys);
      When(ManagedTarget(t) && ManagedTarget(references) && KeyColumns(keys) && KeyColumns(referenced)
           && |keys| == |referenced| && DdlName(objectName),
           CascadeGuards(t, references, onUpdate, onDelete)
           + [AddForeignKey(t, objectName, keys, references, referenced, onUpdate, onDelete)])
    case RlsEnable(t) =>
      When(ManagedTarget(t), [EnableRowSecurity(t), ForceRowSecurity(t)])
    case RlsDisable(t) =>
      When(ManagedTarget(t), [AssertNotExposed(t), NoForceRowSecurity(t), DisableRowSecurity(t)])
    case PolicyCreate(t, c, template) =>
      var objectName := PolicyName(cfg.hash, t.table, c, template);
      When(ManagedTarget(t) && SimpleIdentifier(c) && SimpleIdentifier(cfg.runtimeRole) && DdlName(objectName),
           [CreatePolicy(t, objectName, c, template, cfg.runtimeRole)])
    case PolicyRemove(t, c, template) =>
      var objectName := PolicyName(cfg.hash, t.table, c, template);
      When(ManagedTarget(t) && SimpleIdentifier(c) && DdlName(objectName), [DropPolicy(t, objectName)])
    case Expose(t, alias, readable, insertable, updatable) =>
      When(ManagedTarget(t) && SimpleIdentifier(cfg.runtimeRole) && RegistryAlias(alias)
           && |t.schema| <= MAX_IDENTIFIER_LENGTH && |t.table| <= MAX_IDENTIFIER_LENGTH
           && GrantableColumns(readable) && GrantableColumns(insertable) && GrantableColumns(updatable),
           ExposePlan(cfg, t, alias, readable, insertable, updatable))
    case Unexpose(t) =>
      When(ManagedTarget(t) && SimpleIdentifier(cfg.runtimeRole)
           && |t.schema| <= MAX_IDENTIFIER_LENGTH && |t.table| <= MAX_IDENTIFIER_LENGTH,
           UnexposePlan(cfg, t))
  }
}
