/**
 What a submitted input comes to: when it is accepted, and what its transaction does to the
 catalogue when it commits, however the clients interleave in between.
*/
module Submissions {
  import opened Common
  import opened Ddl
  import opened Commands
  import opened OperationLog
  import opened Services
  import opened Executor
  import opened Effects
  import Replays

  // ---------- what the compiler accepts ----------

  predicate WordChar(c: char) {
    'a' <= c <= 'z' || 'A' <= c <= 'Z' || '0' <= c <= '9' || c == '_'
  }

  predicate IsIdentifier(s: string) {
    |s| >= 1 && !('0' <= s[0] <= '9') && forall i | 0 <= i < |s| :: WordChar(s[i])
  }

  /** Equal up to the case of ASCII letters; `lower` is in lower case. */
  predicate SameFolded(s: string, lower: string) {
    |s| == |lower| && forall i | 0 <= i < |s| ::
      s[i] == lower[i] || ('A' <= s[i] <= 'Z' && s[i] as int + 32 == lower[i] as int)
  }

  predicate SchemaAllowed(s: string) {
    && !SameFolded(s, "microjbase") && !SameFolded(s, "pg_catalog") && !SameFolded(s, "information_schema")
    && !(|s| >= 3 && SameFolded(s[..3], "pg_"))
    && IsIdentifier(s)
  }

  predicate TargetAllowed(t: Target) {
    SchemaAllowed(t.schema) && IsIdentifier(t.table)
  }

  predicate NameAllowed(s: string) {
    IsIdentifier(s) && |s| <= 63
  }

  predicate KeysAllowed(keys: seq<string>) {
    && 1 <= |keys| <= 16 && (forall i | 0 <= i < |keys| :: IsIdentifier(keys[i]))
    && forall i, j | 0 <= i < j < |keys| :: keys[i] != keys[j]
  }

  predicate WholeWithin(n: real, low: int, high: int) {
    n == n.Floor as real && low <= n.Floor <= high
  }

  /** The defaults a column type takes. */
  predicate DefaultAllowed(typ: ColumnType, default: Default) {
    match default
    case NoDefault => true
    case CurrentTimestamp => typ in {Timestamp, Timestamptz}
    case RandomUuid => typ == Uuid
    case Literal(PBoolean(_)) => typ in {Boolean, Jsonb}
    case Literal(PNull) => typ == Jsonb
    case Literal(PString(s)) =>
      typ in {Uuid, Date, Timestamp, Timestamptz, Jsonb} || (typ == Text && '\U{0}' !in s && '\\' !in s)
    case Literal(PNumber(n)) =>
      || typ in {Numeric, Jsonb}
      || (typ == Integer && WholeWithin(n, -0x8000_0000, 0x7fff_ffff))
      || (typ == Bigint && WholeWithin(n, -0x1f_ffff_ffff_ffff, 0x1f_ffff_ffff_ffff))
  }

  predicate TypeStepAllowed(from: ColumnType, to: ColumnType) {
    (from, to) in {(Integer, Bigint), (Integer, Numeric), (Bigint, Numeric), (Date, Timestamp)}
  }

  predicate ColumnListAllowed(columns: seq<string>) {
    columns != [] ==> KeysAllowed(columns)
  }

  ghost predicate CommandAllowed(cfg: Config, command: Command) {
    match command
    case TableCreate(t, columns) =>
      && TargetAllowed(t)
      && (forall i | 0 <= i < |columns| ::
            IsIdentifier(columns[i].name) && columns[i].name != "id" && DefaultAllowed(columns[i].typ, columns[i].default))
      && forall i, j | 0 <= i < j < |columns| :: columns[i].name != columns[j].name
    case TableRename(t, newName) => TargetAllowed(t) && IsIdentifier(newName)
    case TableDrop(t) => TargetAllowed(t)
    case ColumnAdd(t, spec) => TargetAllowed(t) && IsIdentifier(spec.name) && DefaultAllowed(spec.typ, spec.default)
    case ColumnRename(t, c, newName) => TargetAllowed(t) && IsIdentifier(c) && IsIdentifier(newName)
    case ColumnDrop(t, c) => TargetAllowed(t) && IsIdentifier(c)
    case DefaultSet(t, c, default, typ) =>
      TargetAllowed(t) && IsIdentifier(c) && !default.NoDefault? && DefaultAllowed(typ, default)
    case DefaultDrop(t, c) => TargetAllowed(t) && IsIdentifier(c)
    case NotNullSet(t, c) => TargetAllowed(t) && IsIdentifier(c)
    case NotNullDrop(t, c) => TargetAllowed(t) && IsIdentifier(c)
    case TypeChange(t, c, from, to) => TargetAllowed(t) && IsIdentifier(c) && TypeStepAllowed(from, to)
    case IndexCreate(t, keys, name) =>
      TargetAllowed(t) && KeysAllowed(keys) && NameAllowed(Named(cfg, name, "idx", t.table, keys))
    case IndexDrop(t, objectName) => SchemaAllowed(t.schema) && NameAllowed(objectName)
    case UniqueAdd(t, keys, name) =>
      TargetAllowed(t) && KeysAllowed(keys) && NameAllowed(Named(cfg, name, "uniq", t.table, keys))
    case ConstraintDrop(t, objectName) => TargetAllowed(t) && NameAllowed(objectName)
    case ForeignKeyAdd(t, keys, references, referenced, _, _, name) =>
      && TargetAllowed(t) && TargetAllowed(references) && KeysAllowed(keys) && KeysAllowed(referenced)
      && |keys| == |referenced| && NameAllowed(Named(cfg, name, "fkey", t.table, keys))
    case RlsEnable(t) => TargetAllowed(t)
    case RlsDisable(t) => TargetAllowed(t)
    case PolicyCreate(t, c, template) =>
      && TargetAllowed(t) && IsIdentifier(c) && IsIdentifier(cfg.runtimeRole)
      && NameAllowed(PolicyName(cfg.hash, t.table, c, template))
    case PolicyRemove(t, c, template) =>
      TargetAllowed(t) && IsIdentifier(c) && NameAllowed(PolicyName(cfg.hash, t.table, c, template))
    case Expose(t, alias, readable, insertable, updatable) =>
      && TargetAllowed(t) && |t.schema| <= 63 && |t.table| <= 63 && IsIdentifier(cfg.runtimeRole)
      && NameAllowed(alias) && 'a' <= alias[0] <= 'z' && (forall i | 0 <= i < |alias| :: !('A' <= alias[i] <= 'Z'))
      && ColumnListAllowed(readable) && ColumnListAllowed(insertable) && ColumnListAllowed(updatable)
    case Unexpose(t) => TargetAllowed(t) && |t.schema| <= 63 && |t.table| <= 63 && IsIdentifier(cfg.runtimeRole)
  }

  lemma SchemaMeans(s: string)
    ensures SchemaAllowed(s) <==> Manageable(s) && SimpleIdentifier(s)
  {
    FoldMeans(s, "microjbase");
    FoldMeans(s, "pg_catalog");
    FoldMeans(s, "information_schema");
    if |s| >= 3 {
      FoldMeans(s[..3], "pg_");
      assert Lower(s[..3]) == Lower(s)[..3];
    }
  }

  lemma FoldMeans(s: string, lower: string)
    requires forall i | 0 <= i < |lower| :: 'a' <= lower[i] <= 'z' || lower[i] == '_'
    ensures SameFolded(s, lower) <==> Lower(s) == lower
  {
    if |s| == |lower| {
      forall i | 0 <= i < |s|
        ensures (s[i] == lower[i] || ('A' <= s[i] <= 'Z' && s[i] as int + 32 == lower[i] as int))
                <==> Lower(s)[i] == lower[i]
      {
      }
    }
  }

  lemma TargetMeans(t: Target)
    ensures TargetAllowed(t) <==> ManagedTarget(t)
  {
    SchemaMeans(t.schema);
  }

  lemma DefaultMeans(typ: ColumnType, default: Default)
    ensures DefaultAllowed(typ, default) <==> DefaultFits(typ, default)
  {
    if default.Literal? && default.value.PNumber? {
      WholeMeans(default.value.n, -0x8000_0000, 0x7fff_ffff);
      WholeMeans(default.value.n, -0x1f_ffff_ffff_ffff, 0x1f_ffff_ffff_ffff);
    }
  }

  lemma WholeMeans(n: real, low: int, high: int)
    ensures WholeWithin(n, low, high) <==> Whole(n) && low as real <= n <= high as real
  {
    var k := n.Floor;
    if Whole(n) {
      assert n == k as real;
      assert (low <= k <==> low as real <= n) && (k <= high <==> n <= high as real);
    }
  }

  lemma KeysMean(keys: seq<string>)
    ensures KeysAllowed(keys) <==> KeyColumns(keys)
  {
    assert forall i | 0 <= i < |keys| :: keys[i] in keys;
    forall c ensures IsIdentifier(c) <==> SimpleIdentifier(c) {
    }
  }

  lemma ColumnsMean(columns: seq<ColumnSpec>)
    ensures ValidColumns([ID_COLUMN] + columns) <==>
      && (forall i | 0 <= i < |columns| ::
            IsIdentifier(columns[i].name) && columns[i].name != "id" && DefaultAllowed(columns[i].typ, columns[i].default))
      && forall i, j | 0 <= i < j < |columns| :: columns[i].name != columns[j].name
  {
    var specs := [ID_COLUMN] + columns;
    assert specs[0] == ID_COLUMN && forall i | 0 <= i < |columns| :: specs[i + 1] == columns[i];
    forall i | 0 <= i < |columns|
      ensures DefaultAllowed(columns[i].typ, columns[i].default) <==> DefaultFits(columns[i].typ, columns[i].default)
    {
      DefaultMeans(columns[i].typ, columns[i].default);
    }
    if ValidColumns(specs) {
      forall i | 0 <= i < |columns| ensures SimpleIdentifier(columns[i].name) && columns[i].name != "id" {
        assert specs[i + 1] in specs;
      }
      forall i, j | 0 <= i < j < |columns| ensures columns[i].name != columns[j].name {
        assert specs[i + 1].name != specs[j + 1].name;
      }
    }
  }

  lemma TableCommandsCompile(cfg: Config, command: Command)
    requires command.TableCreate? || command.TableRename? || command.TableDrop?
    ensures Compile(cfg, command).Some? <==> CommandAllowed(cfg, command)
  {
    TargetMeans(command.target);
    if command.TableCreate? {
      ColumnsMean(command.columns);
    }
  }

  lemma ColumnCommandsCompile(cfg: Config, command: Command)
    requires command.ColumnAdd? || command.ColumnRename? || command.ColumnDrop? || command.DefaultSet?
             || command.DefaultDrop? || command.NotNullSet? || command.NotNullDrop? || command.TypeChange?
    ensures Compile(cfg, command).Some? <==> CommandAllowed(cfg, command)
  {
    TargetMeans(command.target);
    if command.ColumnAdd? {
      DefaultMeans(command.spec.typ, command.spec.default);
    } else if command.DefaultSet? {
      DefaultMeans(command.typ, command.default);
    }
  }

  lemma KeyCommandsCompile(cfg: Config, command: Command)
    requires command.IndexCreate? || command.UniqueAdd? || command.ForeignKeyAdd?
    ensures Compile(cfg, command).Some? <==> CommandAllowed(cfg, command)
  {
    TargetMeans(command.target);
    KeysMean(command.keys);
    if command.ForeignKeyAdd? {
      TargetMeans(command.references);
      KeysMean(command.referenced);
    }
  }

  lemma OtherCommandsCompile(cfg: Config, command: Command)
    requires command.IndexDrop? || command.ConstraintDrop? || command.RlsEnable? || command.RlsDisable?
             || command.PolicyCreate? || command.PolicyRemove? || command.Unexpose?
    ensures Compile(cfg, command).Some? <==> CommandAllowed(cfg, command)
  {
    TargetMeans(command.target);
    SchemaMeans(command.target.schema);
  }

  lemma ExposeCompiles(cfg: Config, command: Command)
    requires command.Expose?
    ensures Compile(cfg, command).Some? <==> CommandAllowed(cfg, command)
  {
    TargetMeans(command.target);
    KeysMean(command.readable);
    KeysMean(command.insertable);
    KeysMean(command.updatable);
  }

  /** The compiler accepts exactly the commands whose names, keys, defaults and types are allowed. */
  lemma CompilesExactly(cfg: Config, command: Command)
    ensures Compile(cfg, command).Some? <==> CommandAllowed(cfg, command)
  {
    if command.TableCreate? || command.TableRename? || command.TableDrop? { TableCommandsCompile(cfg, command); }
    else if command.IndexCreate? || command.UniqueAdd? || command.ForeignKeyAdd? { KeyCommandsCompile(cfg, command); }
    else if command.Expose? { ExposeCompiles(cfg, command); }
    else if command.IndexDrop? || command.ConstraintDrop? || command.RlsEnable? || command.RlsDisable?
            || command.PolicyCreate? || command.PolicyRemove? || command.Unexpose? { OtherCommandsCompile(cfg, command); }
    else { ColumnCommandsCompile(cfg, command); }
  }

  // ---------- when a submission is accepted ----------

  /** What an input needs, besides an accepting preflight. */
  ghost predicate InputAllowed(cfg: Config, input: Input, live: Live) {
    match input
    case Direct(command) =>
      && !(command.TableDrop? || command.ColumnDrop? || command.RlsDisable? || command.DefaultSet?
           || command.TypeChange? || command.Expose?)
      && CommandAllowed(cfg, command)
    case DropTableInput(t, confirm) => confirm == t.schema + "." + t.table && TargetAllowed(t)
    case DropColumnInput(t, c, confirm) =>
      confirm == t.schema + "." + t.table + "." + c && TargetAllowed(t) && IsIdentifier(c)
    case DisableRlsInput(t, confirm) => confirm == t.schema + "." + t.table && TargetAllowed(t)
    case SetDefaultInput(t, c, default) =>
      && TargetAllowed(t) && IsIdentifier(c) && !default.NoDefault?
      && live.columnType.Some? && DefaultAllowed(live.columnType.value, default)
    case ChangeTypeInput(t, c, toType) =>
      TargetAllowed(t) && IsIdentifier(c) && live.columnType.Some? && TypeStepAllowed(live.columnType.value, toType)
    case ExposeInput(t, alias) =>
      CommandAllowed(cfg, Expose(t, alias, live.readable, live.insertable, live.updatable))
  }

  /** Live reads decide for an unused key, and for a dry run of all but the index, constraint and unexpose commands. */
  predicate FromCatalogue(input: Input, found: Option<Record>, dryRun: bool) {
    || found.None?
    || (dryRun && match input
                  case Direct(command) =>
                    !(command.IndexCreate? || command.IndexDrop? || command.UniqueAdd? || command.ConstraintDrop?
                      || command.ForeignKeyAdd? || command.Unexpose?)
                  case _ => true)
  }

  /** Where live reads decide, a submission is accepted exactly when its preflight and its input allow it. */
  lemma AcceptedExactly(cfg: Config, s: System, c: ClientId, key: string, input: Input, dryRun: bool, live: Live, s': System)
    requires Next(cfg, s, Submit(c, key, input, dryRun, live)) == Some(s') && FromCatalogue(input, Find(s.log, key), dryRun)
    ensures ClientOf(s', c).Compiled? <==> live.accepts && InputAllowed(cfg, input, live)
  {
    AllowedMeans(cfg, input, live);
    SubmitCompiles(cfg, s, c, key, input, dryRun, live, s');
  }

  lemma AllowedMeans(cfg: Config, input: Input, live: Live)
    ensures InputAllowed(cfg, input, live)
            <==> ConfirmedAndDirect(input) && LiveCommand(input, live).Some? && Compile(cfg, LiveCommand(input, live).value).Some?
  {
    if LiveCommand(input, live).Some? {
      CompilesExactly(cfg, LiveCommand(input, live).value);
    }
  }

  /** The command an input stands for. */
  function LiveCommand(input: Input, live: Live): Option<Command> {
    match input
    case Direct(command) => Some(command)
    case DropTableInput(t, _) => Some(TableDrop(t))
    case DropColumnInput(t, c, _) => Some(ColumnDrop(t, c))
    case DisableRlsInput(t, _) => Some(RlsDisable(t))
    case SetDefaultInput(t, c, default) =>
      if live.columnType.None? then None else Some(DefaultSet(t, c, default, live.columnType.value))
    case ChangeTypeInput(t, c, toType) =>
      if live.columnType.None? then None else Some(TypeChange(t, c, live.columnType.value, toType))
    case ExposeInput(t, alias) => Some(Expose(t, alias, live.readable, live.insertable, live.updatable))
  }

  ghost predicate ConfirmedAndDirect(input: Input) {
    match input
    case Direct(command) =>
      !(command.TableDrop? || command.ColumnDrop? || command.RlsDisable? || command.DefaultSet?
        || command.TypeChange? || command.Expose?)
    case DropTableInput(t, confirm) => confirm == t.schema + "." + t.table
    case DropColumnInput(t, c, confirm) => confirm == t.schema + "." + t.table + "." + c
    case DisableRlsInput(t, confirm) => confirm == t.schema + "." + t.table
    case _ => true
  }

  lemma ResolvesTo(input: Input, found: Option<Record>, dryRun: bool, live: Live)
    requires FromCatalogue(input, found, dryRun)
    ensures var resolved := Resolve(input, found, dryRun, live);
            && (resolved.Ok? <==> live.accepts && ConfirmedAndDirect(input) && LiveCommand(input, live).Some?)
            && (resolved.Ok? ==> LiveCommand(input, live) == Some(resolved.value))
  {
  }

  lemma SubmitCompiles(cfg: Config, s: System, c: ClientId, key: string, input: Input, dryRun: bool, live: Live, s': System)
    requires Next(cfg, s, Submit(c, key, input, dryRun, live)) == Some(s') && FromCatalogue(input, Find(s.log, key), dryRun)
    ensures ClientOf(s', c).Compiled? <==>
              live.accepts && ConfirmedAndDirect(input) && LiveCommand(input, live).Some?
              && Compile(cfg, LiveCommand(input, live).value).Some?
    ensures ClientOf(s', c).Compiled? ==>
              var job := ClientOf(s', c).job;
              LiveCommand(input, live) == Some(job.command) && Compile(cfg, job.command) == Some(job.plan)
  {
    ResolvesTo(input, Find(s.log, key), dryRun, live);
  }

  // ---------- what a submission does ----------

  /** What the input asked for has happened between two states, and nothing else. */
  ghost predicate InputDone(cfg: Config, input: Input, live: Live, db: Db, db': Db) {
    match input
    case Direct(command) => Done(cfg, command, db, db')
    case DropTableInput(t, _) => TableDropped(db, db', t)
    case DropColumnInput(t, c, _) => ColumnDropped(db, db', t, c)
    case DisableRlsInput(t, _) => SecurityBecame(db, db', t, false, false)
    case SetDefaultInput(t, c, default) =>
      HasColumn(db, t, c) && ColumnBecame(db, db', t, c, TableAt(db, t).columns[c].(default := default))
    case ChangeTypeInput(t, c, toType) =>
      && HasColumn(db, t, c) && live.columnType == Some(TableAt(db, t).columns[c].typ)
      && ColumnBecame(db, db', t, c, TableAt(db, t).columns[c].(typ := toType))
    case ExposeInput(t, alias) =>
      TableExposed(db, db', t, cfg.runtimeRole, alias, live.readable, live.insertable, live.updatable)
  }

  lemma CommandIsInput(cfg: Config, input: Input, live: Live, db: Db, db': Db)
    requires LiveCommand(input, live).Some? && Done(cfg, LiveCommand(input, live).value, db, db')
    ensures InputDone(cfg, input, live, db, db')
  {
  }

  lemma JobStep(cfg: Config, s: System, a: Action, s': System, c: ClientId)
    requires Next(cfg, s, a) == Some(s') && (a.client == c ==> !a.Submit?)
    requires ClientOf(s', c).InTransaction? || ClientOf(s', c).Compiled?
    ensures ClientOf(s, c).InTransaction? || ClientOf(s, c).Compiled?
    ensures ClientOf(s, c).job == ClientOf(s', c).job
  {
  }

  lemma {:induction false} JobKept(cfg: Config, s: System, actions: seq<Action>, s': System, c: ClientId)
    requires Run(cfg, s, actions) == Some(s')
    requires forall a <- actions :: a.client == c ==> !a.Submit?
    requires ClientOf(s', c).InTransaction? || ClientOf(s', c).Compiled?
    ensures ClientOf(s, c).InTransaction? || ClientOf(s, c).Compiled?
    ensures ClientOf(s, c).job == ClientOf(s', c).job
    decreases |actions|
  {
    if actions != [] {
      var next := Next(cfg, s, actions[0]).value;
      assert actions[0] in actions && forall a <- actions[1..] :: a in actions;
      JobKept(cfg, next, actions[1..], s', c);
      JobStep(cfg, s, actions[0], next, c);
    }
  }

  /**
   Whatever happens between a submission and its COMMIT, the COMMIT does to the database as it
   then is exactly what the submitted input asks for; and the key was unused.
  */
  lemma CommitDoesTheInput(cfg: Config, init: Db, s: System, c: ClientId, key: string, input: Input, dryRun: bool, live: Live,
                           submitted: System, actions: seq<Action>, mid: System, answered: bool, s': System)
    requires Inv(cfg, init, s)
    requires Next(cfg, s, Submit(c, key, input, dryRun, live)) == Some(submitted)
    requires Run(cfg, submitted, actions) == Some(mid)
    requires forall a <- actions :: a.client == c ==> !a.Submit?
    requires NextCommit(mid, c, answered) == Some(s')
    ensures Find(s.log, key).None? && !dryRun
    ensures InputDone(cfg, input, live, mid.db, s'.db)
  {
    StepKeepsInv(cfg, init, s, Submit(c, key, input, dryRun, live), submitted);
    RunKeepsInv(cfg, init, submitted, actions, mid);
    CommitPublishes(cfg, init, mid, c, answered, s');
    JobKept(cfg, submitted, actions, mid, c);
    KeyWasUnused(cfg, init, s, c, key, input, dryRun, live, submitted, actions, mid);
    SubmittedJob(cfg, s, c, key, input, dryRun, live, submitted);
    SubmitCompiles(cfg, s, c, key, input, dryRun, live, submitted);
    PlanDoesTheInput(cfg, input, live, ClientOf(mid, c).job, mid.db, s'.db);
  }

  lemma PlanDoesTheInput(cfg: Config, input: Input, live: Live, job: Job, db: Db, db': Db)
    requires LiveCommand(input, live) == Some(job.command) && Compile(cfg, job.command) == Some(job.plan)
    requires ApplyAll(job.plan, db) == Some(db')
    ensures InputDone(cfg, input, live, db, db')
  {
    EveryCommandWorks(cfg, job.command, db);
    CommandIsInput(cfg, input, live, db, db');
  }

  lemma SubmittedJob(cfg: Config, s: System, c: ClientId, key: string, input: Input, dryRun: bool, live: Live, s': System)
    requires Next(cfg, s, Submit(c, key, input, dryRun, live)) == Some(s')
    ensures ClientOf(s', c).Finished? || ClientOf(s', c).Compiled?
    ensures ClientOf(s', c).Compiled? ==> ClientOf(s', c).job.key == key && ClientOf(s', c).job.dryRun == dryRun
  {
  }

  lemma KeyWasUnused(cfg: Config, init: Db, s: System, c: ClientId, key: string, input: Input, dryRun: bool, live: Live,
                     submitted: System, actions: seq<Action>, mid: System)
    requires Inv(cfg, init, s)
    requires Next(cfg, s, Submit(c, key, input, dryRun, live)) == Some(submitted)
    requires Run(cfg, submitted, actions) == Some(mid)
    requires forall a <- actions :: a.client == c ==> !a.Submit?
    requires ClientOf(mid, c).InTransaction? && ClientOf(mid, c).recorded
    ensures Find(s.log, key).None?
  {
    if Find(s.log, key).Some? {
      var r := Find(s.log, key).value;
      Replays.UsedKeyChangesNothing(cfg, init, s, r, input, dryRun, live, c, submitted, actions, mid);
      JobKept(cfg, submitted, actions, mid, c);
      SubmittedJob(cfg, s, c, key, input, dryRun, live, submitted);
      assert false;
    }
  }

  // ---------- what a retry comes to ----------

  /** The command is one that an earlier success of this very input recorded. */
  predicate Records(input: Input, command: Command) {
    match input
    case Direct(own) =>
      && command == own
      && !(own.TableDrop? || own.ColumnDrop? || own.RlsDisable? || own.DefaultSet? || own.TypeChange? || own.Expose?)
    case DropTableInput(t, _) => command == TableDrop(t)
    case DropColumnInput(t, c, _) => command == ColumnDrop(t, c)
    case DisableRlsInput(t, _) => command == RlsDisable(t)
    case SetDefaultInput(t, c, default) => command.DefaultSet? && command == DefaultSet(t, c, default, command.typ)
    case ChangeTypeInput(t, c, toType) => command.TypeChange? && command == TypeChange(t, c, command.fromType, toType)
    case ExposeInput(t, alias) =>
      command.Expose? && command == Expose(t, alias, command.readable, command.insertable, command.updatable)
  }

  lemma RetryResolves(input: Input, recorded: Command)
    ensures Records(input, recorded) ==> FromRecord(input, recorded) == Ok(recorded)
    ensures FromRecord(input, recorded) == Ok(recorded) ==> Records(input, recorded)
  {
  }

  /** Otherwise, under a used key, the recorded command is recompiled exactly for an input that recorded it. */
  lemma RetryCompiles(cfg: Config, init: Db, s: System, r: Record, input: Input, dryRun: bool, live: Live, c: ClientId, s': System)
    requires Inv(cfg, init, s) && r in s.log
    requires Next(cfg, s, Submit(c, r.key, input, dryRun, live)) == Some(s') && !FromCatalogue(input, Some(r), dryRun)
    ensures Records(input, r.command) ==> ClientOf(s', c) == Compiled(Job(r.key, r.command, r.checksum.statements, dryRun))
    ensures !Records(input, r.command) && !ClientOf(s', c).Finished? ==>
              ClientOf(s', c).Compiled? && ClientOf(s', c).job.command != r.command
              && Replays.Bound(ClientOf(s', c), r, ClientOf(s', c).job.command, dryRun)
  {
    Replays.RecordFacts(cfg, s.log, s.nextId, r);
    RetryResolves(input, r.command);
  }

  /**
   The answer of a retry, whoever runs in between: the recorded outcome, or a broken connection,
   exactly for an input that asked for what the key recorded; any other input is refused.
  */
  lemma RetryEnds(cfg: Config, init: Db, s: System, r: Record, input: Input, live: Live, c: ClientId,
                  submitted: System, actions: seq<Action>, s': System)
    requires Inv(cfg, init, s) && r in s.log
    requires Next(cfg, s, Submit(c, r.key, input, false, live)) == Some(submitted)
    requires Run(cfg, submitted, actions) == Some(s') && ClientOf(s', c).Finished?
    requires forall a <- actions :: a.client == c ==> !a.Submit?
    ensures Records(input, r.command) ==> ClientOf(s', c).outcome in {Replayed(r), Broken}
    ensures !Records(input, r.command) ==>
              ClientOf(s', c).outcome.Refused? || ClientOf(s', c).outcome in {NotCompiled, Conflicted, Broken}
  {
    RetryCompiles(cfg, init, s, r, input, false, live, c, submitted);
    Replays.SubmitEnds(cfg, s, r, input, false, live, c, submitted);
    if ClientOf(submitted, c).Finished? {
      Replays.FinishedThroughRun(cfg, submitted, actions, s', c);
    } else {
      StepKeepsInv(cfg, init, s, Submit(c, r.key, input, false, live), submitted);
      Replays.BoundThroughRun(cfg, init, submitted, actions, s', c, r, ClientOf(submitted, c).job.command, false);
    }
  }
}
