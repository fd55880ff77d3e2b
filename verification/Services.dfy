/**
 How a service turns a submitted input into the command it records: from the live
 catalogue for an unused key (or a dry run), from the recorded command for a used one.
*/
module Services {
  import opened Common
  import opened Ddl
  import opened Commands
  import opened OperationLog

  /** `Direct` inputs carry everything their command records. */
  datatype Input =
    | Direct(command: Command)
    | DropTableInput(target: Target, confirm: string)
    | DropColumnInput(target: Target, column: string, confirm: string)
    | DisableRlsInput(target: Target, confirm: string)
    | SetDefaultInput(target: Target, column: string, default: Default)
    | ChangeTypeInput(target: Target, column: string, toType: ColumnType)
    | ExposeInput(target: Target, alias: string)

  /**
   What the unlocked reads answered: whether every preflight guard passed, the mapped type
   of the column, and the verified column contract.  Nothing ties these to the database, so
   they may be stale or wrong.
  */
  datatype Live = Live(accepts: bool, columnType: Option<ColumnType>,
                       readable: seq<string>, insertable: seq<string>, updatable: seq<string>)

  datatype ServiceError = PreflightRefused | Unconfirmed | UnmanagedType | MalformedRecord | KeyConflict | NoSuchCommand

  predicate IsDirect(command: Command) {
    !(command.TableDrop? || command.ColumnDrop? || command.RlsDisable? || command.DefaultSet?
      || command.TypeChange? || command.Expose?)
  }

  /** The index, constraint and unexpose commands preflight only when the key is unused. */
  predicate IgnoresDryRun(input: Input) {
    input.Direct? && (input.command.IndexCreate? || input.command.IndexDrop? || input.command.UniqueAdd?
                      || input.command.ConstraintDrop? || input.command.ForeignKeyAdd? || input.command.Unexpose?)
  }

  predicate PreflightApplies(input: Input, record: Option<Record>, dryRun: bool) {
    record.None? || (dryRun && !IgnoresDryRun(input))
  }

  function TableConfirmation(t: Target): string {
    t.schema + "." + t.table
  }

  predicate Confirmed(input: Input) {
    match input
    case DropTableInput(t, confirm) => confirm == TableConfirmation(t)
    case DropColumnInput(t, c, confirm) => confirm == TableConfirmation(t) + "." + c
    case DisableRlsInput(t, confirm) => confirm == TableConfirmation(t)
    case _ => true
  }

  /** The command rebuilt from the record of a used key. */
  function FromRecord(input: Input, recorded: Command): Result<Command, ServiceError> {
    match input
    case SetDefaultInput(t, c, default) =>
      if recorded.DefaultSet? then Ok(DefaultSet(t, c, default, recorded.typ)) else Err(MalformedRecord)
    case ChangeTypeInput(t, c, toType) =>
      if recorded.TypeChange? then Ok(TypeChange(t, c, recorded.fromType, toType)) else Err(MalformedRecord)
    case ExposeInput(t, alias) =>
      if recorded.Expose? && recorded.target == t && recorded.alias == alias
      then Ok(Expose(t, alias, recorded.readable, recorded.insertable, recorded.updatable))
      else Err(KeyConflict)
    case _ => Restated(input)
  }

  /** The commands that record nothing beyond their input; a confirmation is not recorded. */
  function Restated(input: Input): Result<Command, ServiceError> {
    match input
    case Direct(command) => if IsDirect(command) then Ok(command) else Err(NoSuchCommand)
    case DropTableInput(t, _) => Ok(TableDrop(t))
    case DropColumnInput(t, c, _) => Ok(ColumnDrop(t, c))
    case DisableRlsInput(t, _) => Ok(RlsDisable(t))
    case _ => Err(NoSuchCommand)
  }

  /** The command built from the live catalogue. */
  function FromLive(input: Input, live: Live): Result<Command, ServiceError> {
    match input
    case SetDefaultInput(t, c, default) =>
      if live.columnType.Some? then Ok(DefaultSet(t, c, default, live.columnType.value)) else Err(UnmanagedType)
    case ChangeTypeInput(t, c, toType) =>
      if live.columnType.Some? then Ok(TypeChange(t, c, live.columnType.value, toType)) else Err(UnmanagedType)
    case ExposeInput(t, alias) => Ok(Expose(t, alias, live.readable, live.insertable, live.updatable))
    case _ => Restated(input)
  }

  function Resolve(input: Input, record: Option<Record>, dryRun: bool, live: Live): Result<Command, ServiceError> {
    if PreflightApplies(input, record, dryRun) then
      if !live.accepts then Err(PreflightRefused)
      else if !Confirmed(input) then Err(Unconfirmed)
      else FromLive(input, live)
    else FromRecord(input, record.value.command)
  }

  /** A first submission of this input, under some answers of the live reads, records this command. */
  ghost predicate CameFrom(input: Input, command: Command) {
    exists live: Live :: Resolve(input, None, false, live) == Ok(command)
  }
}
