# Verification of MicroJBase's schema-change core

MicroJBase lets an operator change a PostgreSQL schema through typed commands and serves chosen
tables to tenants through a data API. This project models that core in Dafny and proves what it
promises over every run, not only over one call.

## The protocol

A client reads the catalogue without a lock, compiles its command to a statement list, and later
runs one transaction: advisory lock, claim of the idempotency row, the statements (some of them
guards that read again under the lock), the row marked succeeded, COMMIT. Callers race, preflight
answers go stale, connections break before and after COMMIT, keys are retried.

- `Ddl` is the catalogue and the 32 statements, each a partial function on it. Tables have an
  identity of their own, columns have a number that is never reused, so renames and drops are
  visible to the proofs.
- `Commands` is the compiler: 22 commands with their identifier, key, default and type checks.
- `Effects` says, for each command and over its own fields, when its plan goes through and what it
  leaves changed in tables, columns, keys, policies, grants and the registry; `ObjectNames` when two
  names the module makes up are equal.
- `OperationLog` is the history with its atomic queries; `Services` is the unlocked preflight: what
  a new key takes from the catalogue (an arbitrary, possibly stale answer) and what a used key
  takes from its record.
- `Executor` is the state machine: clients, private copies, the lock, broken connections, lost
  COMMIT answers, retries. `Sessions` is the executor's own control flow on one connection, as a
  class, with the proof that each of its attempts is a run of that machine.
- `Exposure`, `Privileges`, `ColumnTypes` and `Replays` prove invariants of every run of that
  machine. They use nothing about the preflight answers, so they rest on the locked guards.
- `Submissions` goes from end to end: which inputs are accepted, what a COMMIT does to the database
  the input was meant for, and what a retry under a used key is answered.
- `ColumnValues` is what the conversions of the type matrix do to stored values.
- `LogRace` is the operation log alone, with every query of `begin`, `succeed` and `fail`
  interleaved between any number of callers.

Nothing about the order of callers is assumed, and every statement may fail for reasons of
PostgreSQL's own (the `Cut` action).

## Around it

- `Ownership`: the check a table passes before exposure, against PostgreSQL's rule for combining
  policies (some permissive clause, every restrictive one, nothing by default).
- `ExposureImport` and `Refresher`: two small concurrent protocols, the one-time import raced by
  starting processes and the ticketed refresh of the served registry.
- `RateLimiter`, `RateWindows`, `RateAnswers` and `RateOptions`: the bounded limiter as a class over
  its ordered map, the unbounded limiter it refines, every answer told from the attempts alone, and
  the options for which it keeps the bounds they name.
- `CanonicalJson`, `CanonicalParser`, `ChecksumPreimage`: the checksum preimage and a parser that
  inverts it (string escapes as in section 7 of RFC 8259); `CanonicalNotation` is what the text
  looks like, character by character.
- `JsonGraph`: the worklist that recognises JSON values on a possibly cyclic heap.
- `CatalogueMap` and `CatalogueRows`: grouping catalogue rows into the sorted model, and what each
  field of each row has to do with it.
- `Decimal`, `Token`, `Migrations`: plain decimal notation, session tokens (sections 3.5 and 5 of
  RFC 4648), and the migration runner.

## Assumptions

- SHA-256 is injective on its preimage where it serves as the operation checksum; where it only
  shortens names, nothing is assumed of it.
- `idempotency_key`, the pair (`schema_name`, `table_name`) and `alias` are unique, as the
  migrations declare. A query is atomic.
- `Exposure` starts from a state that already satisfies its invariant.
- `Ownership` (`Faithful`): two expressions that PostgreSQL deparses to the same text on the pinned
  session mean the same, and a role whose privileges the runtime role has is one it is a member of.
  The policy list, the probe's renderings and the catalogue queries of one check see one snapshot.
- `ColumnValues`: the value ranges PostgreSQL documents for its types.

## Findings

- The preimage (src/database/schema-operation-log.ts:133-166) cannot tell NaN or an infinity from
  `null`, nor -0 from 0: `NonFiniteCollides` gives the commands, `PreimageUnambiguous` shows that
  nothing else coincides beyond object key order. The collision is one of the checksum function.
  A service's command with a numeric NaN default is refused, and with a jsonb NaN default it
  compiles to another statement than `null` does (src/database/schema-ddl.ts:322-327 and 363-379);
  -0 and 0 compile to the same literal, so taking them for one command is right.
- The limiter does not keep `attemptsPerWindow` or `maxEntries` below one
  (src/http/rate-limiter.ts:56-66 and 93-98): the first check of a key is always allowed and always
  leaves an entry (`FirstIsAllowed`). The bounds hold exactly from one on (`WindowBoundExactly`,
  `MapBoundExactly`). The constructor accepts smaller values (src/http/rate-limiter.ts:44-50); the
  server constructs it only with the defaults of 10 attempts and 10000 entries, and with 30 attempts
  (src/http/server.ts:175 and 200-203).
- When more keys are active than the map holds, eviction forgets open windows: for every option
  with windows of positive length there is a run in which a key exceeds any number of attempts
  (`EvictionForgets`, `AlwaysBoundExactly`; src/http/rate-limiter.ts:93-98 and 110-122). On the runs
  that fit the map the bound holds (`FittingWindowBoundExactly`).
- The roll-over branch (src/http/rate-limiter.ts:68-74) is dead, because `evictExpired` ran just
  before (`RollOverUnreachable`).
- The type matrix is documented as losing no value of any source type
  (src/database/schema-ddl.ts:502-513). Date to timestamp does not reach every value: dates from
  294277-01-01 on have no timestamp, so a column that holds one cannot be changed
  (`LateDateFails`, `EmbedsEveryValueExactly`). Nothing is lost; the statement fails.

## Model

| member | source | states |
|---|---|---|
| Executor.HistoryIsRedoLog | src/database/schema-ddl.ts:1810-1955 | after every interleaving, with cut connections and lost answers, the published state is the recorded commands recompiled and applied once each in id order; every row is a success; no key occurs twice |
| Executor.OneTransaction | src/database/schema-ddl.ts:1810-1955 | the advisory lock keeps two clients from being inside a transaction at once, whatever broke before |
| Executor.RowsAreCommits | src/database/schema-ddl.ts:1810-1955 | there is one row for every COMMIT that took effect and none else, so dry runs, refusals and broken attempts leave no trace; a client told of a success was told of a durable row |
| Executor.DryRunNeverCommits | src/database/schema-ddl.ts:1810-1955 | a dry run can reach neither the marking of its row nor a COMMIT |
| Executor.CommitPublishes | src/database/schema-ddl.ts:1810-1955 | what a COMMIT publishes is the whole plan applied to the state now published, and one new last row under an unused key with the largest id |
| Effects.EveryCommandWorks | src/database/schema-ddl.ts:414-1416 | each of the 22 commands goes through exactly when its table, columns, names and guards allow it, and then changes exactly what it says: a drop removes the table with its own objects, a type, default or nullability change that one column, an expose the grants of each privilege on its own columns; nothing else changes |
| Effects.ExposeDoes | src/database/schema-exposure.ts:858-914 | an expose goes through exactly on a hidden, row-secured and forced table without rewriting foreign keys, and hands the runtime role DELETE, SELECT on the readable, INSERT on the insertable and UPDATE on the updatable columns, and no more |
| Effects.UnexposeDoes | src/database/schema-exposure.ts:919-960 | an unexpose removes exactly the privileges of the runtime role on the table, and goes through exactly when the administrator granted them all |
| Submissions.CompilesExactly | src/database/schema-ddl.ts:150-242 | the compiler accepts exactly the commands whose identifiers, schema, key lists, defaults, type step and alias are allowed |
| Submissions.AcceptedExactly | src/database/schema-mutations.ts:490-507 | where live reads decide, an input is accepted exactly when its preflight passed, its confirmation is the text it must repeat and its command is allowed |
| Submissions.CommitDoesTheInput | src/database/schema-mutations.ts:526-975 | whatever runs between a submission and its COMMIT, the COMMIT does to the database as it then is exactly what the input asked for, under a key that was unused |
| Submissions.RetryCompiles | src/database/schema-mutations.ts:490-507 | where a record decides, its command is recompiled exactly for an input that recorded it; any other input compiles to another command or not at all |
| Submissions.RetryEnds | src/database/schema-operation-log.ts:385-470 | a retry is answered with the recorded outcome, or breaks, exactly for the input the key recorded; any other input is refused or conflicts |
| ObjectNames.NameIsWritten | src/database/schema-ddl.ts:772-790 | a made-up name is at most 54 readable characters, an underscore and eight digits of the digest of its whole identity |
| ObjectNames.EqualNames | src/database/schema-ddl.ts:772-790 | two objects get one name only where the shortened digests of different identities agree: the digested text tells kind, table and columns apart |
| ObjectNames.PolicyNamesDistinct | src/database/schema-ddl.ts:1364-1386 | so the policy names of one table stand for one column and template each, unless digests collide |
| Sessions.Session.Execute | src/database/schema-ddl.ts:1810-1955 | the state after one attempt and its answer, for every point at which the database may fail, a COMMIT whose answer is lost included |
| Sessions.Session.RunPlan | src/database/schema-ddl.ts:1810-1955 | the statement loop computes the whole plan's effect, or nothing when a statement or the connection fails |
| Sessions.SessionIsRun | src/database/schema-ddl.ts:1810-1955 | every such attempt is a run of the protocol with the same state and answer; when it takes effect the run is lock, claim, one action per statement, success update, COMMIT |
| Sessions.AloneIsHonest | src/database/schema-ddl.ts:1810-1955 | unless an answer is lost the state changes exactly with a reported execution, which is the whole plan and one success row; dry runs change nothing |
| Sessions.AloneAnswers | src/database/schema-ddl.ts:1810-1955 | when each answer is given: an execution exactly for a well-formed key that is unused, or failed with the same operation, and a plan that goes through; a replay, a conflict and a finished dry run likewise |
| Sessions.FirstExecution | src/database/schema-operation-log.ts:433-470 | an execution under an unused key leaves the effect of its plan and one new row, in all its fields |
| Replays.SameInputRecompiles | src/database/schema-mutations.ts:490-507 | a retry compiles the recorded statement list whatever the catalogue says by now; which command an input stands for is said by Submissions.CommitDoesTheInput and RetryCompiles |
| Replays.ReplayIsStable | src/database/schema-mutations.ts:912-975 | in any later reachable state, whoever runs in between, a retry can only end in the recorded outcome or a broken connection, and none of its actions changes the database or the history; in particular none of its COMMITs took effect |
| Replays.ReplayIsReached | src/database/schema-exposure.ts:543-591 | with the lock free a retry does end in the recorded outcome, in three steps, without changing anything |
| Replays.UsedKeyChangesNothing | src/database/schema-operation-log.ts:385-470 | any input under a used key, however its attempt ends, changes neither database nor history by any action of its client |
| Replays.BoundKept | src/database/schema-operation-log.ts:385-470 | no action of any client lets a client bound to a used key publish a change |
| Exposure.StatementKeeps | src/database/schema-ddl.ts:1418-1435 | each statement, where its guards hold, keeps exposed tables shielded and their identity, columns and alias frozen |
| Exposure.PlanAdmissible | src/database/schema-ddl.ts:961-972 | every compiled plan carries the guards its statements need, in whatever state it runs |
| Exposure.ExposedTablesStaySafe | src/database/schema-ddl.ts:1475-1552 | over every run, an exposed row names a table with row security enabled and forced and no cascading or nulling foreign key at either end; while it stays exposed its table, columns and alias do not change |
| Exposure.StepKeepsExposed | src/database/schema-mutations.ts:421-423 | one action of the protocol keeps that, with any preflight answer |
| Privileges.UnexposeSealed | src/database/schema-ddl.ts:1110-1150 | a committed unexpose leaves the table unexposed and without any privilege of the runtime role, also those other roles granted |
| Privileges.ExposeSealed | src/database/schema-exposure.ts:858-914 | an expose removes no grant and adds only grants of the runtime role on the table it exposes; unexposed tables stay out of reach (which privilege goes to which columns: Effects.ExposeDoes) |
| Privileges.UnexposedTablesStaySealed | src/database/schema-exposure.ts:919-960 | over every run, the runtime role holds no privilege on a table that is not exposed |
| ColumnTypes.TypeChangeAdvances | src/database/schema-ddl.ts:684-735 | a committed type change converts from the column's actual type at that moment by a pair of the matrix |
| ColumnTypes.StepAdvances | src/database/schema-ddl.ts:515-528 | one action never changes a column's type except by a pair of the matrix from its type then, even after a stale preflight |
| ColumnTypes.LifeAscends | src/database/schema-mutations.ts:251-276 | over every run each change of a column's type climbs its chain: changes are bounded by the rank gained |
| ColumnTypes.AtMostTwoTypeChanges | src/database/schema-ddl.ts:515-528 | a column changes type at most twice in its life |
| ColumnValues.ConversionEmbeds | src/database/schema-ddl.ts:502-528 | a conversion of the matrix succeeds exactly on the values the target reaches, and keeps what the value means: numbers by value, dates as their midnight |
| ColumnValues.ConversionInjective | src/database/schema-ddl.ts:502-513 | no two values of one source type convert to the same |
| ColumnValues.EmbedsEveryValueExactly | src/database/schema-ddl.ts:502-513 | a conversion reaches every value of its source type exactly when the source is not a date |
| ColumnValues.LateDateFails | src/database/schema-ddl.ts:508-509 | the first date without a timestamp, and the last with one |
| ColumnValues.ColumnKeepsMeaning | src/database/schema-ddl.ts:684-704 | changing a column's type goes through exactly when every row is reached, and keeps what every row means and which are null |
| LogRace.ClaimsAreExclusive | src/database/schema-operation-log.ts:385-498 | over every interleaving of queries one key has at most one unfinished accepted claim, and no caller reaches the branches reported as malformed history |
| LogRace.HistoryIsImmutable | src/database/schema-operation-log.ts:78-114 | rows never go away, their key, command and checksum never change, and a success is final |
| LogRace.BeginTerminates | src/database/schema-operation-log.ts:385-431 | every query of a caller's `begin` comes closer to its answer: the retry loop stops |
| LogRace.InsertAnswers | src/database/schema-operation-log.ts:433-470 | a claim is won exactly on a key no row has, and is then one new running row at the end; otherwise nothing is written |
| LogRace.LookAnswers | src/database/schema-operation-log.ts:385-402 | a caller whose key is used is answered by the one row of that key: another checksum conflicts, then replay, in progress or restart by its status |
| LogRace.RestartAnswers | src/database/schema-operation-log.ts:404-414 | a restart is won exactly while the row is a failure, and only that row changes, back to running without an error |
| LogRace.RereadAnswers | src/database/schema-operation-log.ts:415-431 | the loser of a restart is answered by what the row has become, and conflicts at the fourth loss |
| LogRace.FinishAnswers | src/database/schema-operation-log.ts:473-498 | the holder of a claim ends its own row as it says, and no other |
| ChecksumPreimage.DecodeInverts | src/database/schema-operation-log.ts:133-166 | a parser reads type, command and statements back from every preimage, up to key order |
| ChecksumPreimage.PreimageUnambiguous | src/database/schema-operation-log.ts:133-166 | two operations share a preimage exactly when types and statements are equal and commands are equal up to key order, a non-finite number counting as null and -0 as 0 |
| ChecksumPreimage.NonFiniteCollides | src/database/schema-operation-log.ts:133-148 | different commands with one preimage: a non-finite number and null, -0 and 0 |
| ChecksumPreimage.SameIsNormal | src/database/schema-operation-log.ts:133-148 | equality up to key order, defined without sorting, is equality of the sorted forms |
| ChecksumPreimage.SortedUnique | src/database/schema-operation-log.ts:133-148 | sorting the keys has one result |
| ChecksumPreimage.LessIsUnitOrder | src/database/schema-operation-log.ts:143 | keys are compared by their first differing code unit, the shorter first when there is none |
| CanonicalNotation.UnitIsWritten | src/database/schema-operation-log.ts:133-137 | every escape of a lone code unit, as ECMAScript writes it: five letters, quote and backslash, lower-case hexadecimal otherwise |
| CanonicalNotation.PlainStringStays | src/database/schema-operation-log.ts:133-137 | well-formed text without control characters, quotes and backslashes is written as it is |
| CanonicalNotation.ObjectIsWritten | src/database/schema-operation-log.ts:143-147 | an object is all its members with their keys ascending, with the punctuation of JSON and no space |
| CanonicalNotation.PreimageIsWritten | src/database/schema-operation-log.ts:154-166 | the preimage is version, type, command and the statements as an array of strings, with bars between |
| CanonicalParser.RoundTrip | src/database/schema-operation-log.ts:133-148 | parsing the text of any value gives the value and the rest of the text |
| CanonicalParser.StringRoundTrip | src/database/schema-operation-log.ts:133-148 | every string of UTF-16 code units survives escaping, lone surrogates included |
| CanonicalParser.CanonicalIsPlain | src/database/schema-operation-log.ts:133-148 | the canonical text of a value is the unsorted text of its recursively sorted form |
| JsonGraph.IsJsonValue | src/data/validate.ts:93-153 | terminates on every heap, cyclic ones included, and answers true exactly when the value is a finite tree of JSON nodes |
| JsonGraph.PopObject | src/data/validate.ts:93-153 | replacing an unseen object by its children keeps the question open on the stack the same |
| JsonGraph.PopRefused | src/data/validate.ts:93-153 | a non-JSON leaf, an array hole or an object seen before means there is no tree |
| JsonGraph.LeavesAre | src/data/validate.ts:96-122 | of the values that are no objects exactly null, strings, booleans and finite numbers are JSON |
| JsonGraph.NodesAre | src/data/validate.ts:124-150 | an object unfolds element by element when it is an array without holes, value by value when it is plain, and not otherwise |
| Ownership.VerifyExposureCandidate | src/database/schema-exposure.ts:380-531 | accepts exactly the tables that break none of the requirements, refuses with the first that is broken, and returns the three column lists: readable the columns of a supported type, insertable those that are neither generated nor identity, updatable those without `id`, each in column order |
| Ownership.ContractIsRight | src/database/schema-exposure.ts:434-458 | the three lists over the columns as the catalogue gives them, each column once and in order; updatable is insertable without `id` |
| Ownership.AcceptanceMeans | src/database/schema-exposure.ts:380-531 | over rows and policies: an accepted table has row security forced, a single uuid key `id`, a changeable column, and for each command a policy of the module and no broader one; such a table is accepted unless names collide |
| Ownership.TrimmedIs | src/database/table-types.ts:168-174 | normalising a type name takes blanks off both its ends and nothing else |
| Ownership.Comparisons.MatchesModulePolicy | src/database/schema-exposure.ts:299-343 | the cached comparison answers as an uncached one would |
| Ownership.CheckCommand | src/database/schema-exposure.ts:460-524 | the first policy requirement one command breaks, over policies for the command and for all commands |
| Ownership.AcceptedRowsAreOwned | src/database/schema-exposure.ts:460-524 | after acceptance every row a SELECT, INSERT, UPDATE or DELETE may touch for a user has that user in some column, before and after, and none qualifies without an identity |
| Ownership.ManagedPoliciesPass | src/database/schema-ddl.ts:1364-1386 | the four policies the module creates on one column pass, unless policy names collide |
| Ownership.ManagedPoliciesServe | src/database/schema-ddl.ts:1282-1348 | under those policies a user reaches exactly the rows that column gives to that user |
| Ownership.ModuleIdentityFinds | src/database/schema-exposure.ts:273-287 | the lookup finds an identity that has the name, and finds one whenever there is one |
| ExposureImport.BuildImportPayload | src/database/exposure-registry.ts:265-291 | accepts exactly the valid mappings without a duplicate alias or target, unchanged and in order |
| ExposureImport.MappingMeans | src/database/exposure-registry.ts:208-254 | the valid mappings, by the characters of alias, schema and table and the system schemas in any case |
| ExposureImport.ImportableMeans | migrations/0006_exposure_registry.sql:100-112 | what the SQL function accepts: the same in lower case only, and no schema of the system |
| ExposureImport.SetKeyInjective | src/database/exposure-registry.ts:344-346 | NUL-joined keys tell entries apart |
| ExposureImport.ComparisonIsSetEquality | src/database/exposure-registry.ts:348-367 | the counting comparison decides set equality, because neither list has duplicates |
| ExposureImport.AtMostOneImport | migrations/0006_exposure_registry.sql:125-142 | over every run at most one import takes effect, of one process's whole mapping, and the registry never changes afterwards |
| ExposureImport.StartUpsAgree | src/database/exposure-registry.ts:304-339 | every process that returns returns the same set, which is its own mapping, whatever answers were lost |
| ExposureImport.LoserAgrees | src/database/exposure-registry.ts:323-337 | a process whose import failed returns exactly when the winner chose its set, conflicts with another set, and fails if nobody won |
| ExposureImport.LoneStartImports | src/database/exposure-registry.ts:304-339 | a process that is neither overtaken nor cut off imports its mapping into an uninitialised registry and returns it |
| ExposureImport.EarlyRefusals | src/database/exposure-registry.ts:307-316 | an initialised registry is a conflict and an invalid mapping a refusal before anything is imported |
| Refresher.StepNeverGoesBack | src/main.ts:93-105 | the durable version behind the served registry never goes back |
| Refresher.OvertakenIsDiscarded | src/main.ts:93-105 | over every run, a refresh overtaken by a newer start leaves the served registry as it finds it when it completes, and is served by no later state |
| Refresher.OnlyNewestIsInstalled | src/main.ts:93-105 | over every run, the ticket behind the served registry only grows, and only to tickets at least as new as every refresh started before |
| Refresher.ServedWasNewest | src/main.ts:93-105 | the served snapshot is start-up's own or that of a refresh that was the newest at the moment it completed |
| Refresher.ServedIsDurable | src/main.ts:93-105 | when the newest refresh started after the last commit and completed, the served set is the durable set |
| Refresher.RefreshAfterCommit | src/main.ts:93-105 | a commit followed by a refresh that is not overtaken is served, whatever older refreshes do meanwhile |
| Refresher.RuntimeRegistryRefresher.Finish | src/database/table-registry.ts:563-574 | the code after the await, replacing what the shared cell holds or not, is the protocol's completion step |
| RateLimiter.InMemoryRateLimiter.Check | src/http/rate-limiter.ts:56-90 | the new map and the answer are those of the specification step, whose answers RateAnswers.AnswersExactly tells from the attempts alone |
| RateLimiter.InMemoryRateLimiter.EvictExpired | src/http/rate-limiter.ts:100-108 | leaves exactly the unexpired entries, in order |
| RateLimiter.InMemoryRateLimiter.EvictOldest | src/http/rate-limiter.ts:110-122 | removes the first entry with the least reset time |
| RateWindows.RollOverUnreachable | src/http/rate-limiter.ts:68-74 | the roll-over branch is never taken |
| RateWindows.AlwaysBounded | src/http/rate-limiter.ts:93-98 | the map never exceeds its bound (at least one entry), whatever the clock does |
| RateWindows.AlwaysOrdered | src/http/rate-limiter.ts:56-122 | with a clock that does not go back insertion order is reset order |
| RateWindows.UnexpiredSuffix | src/http/rate-limiter.ts:100-108 | expired entries are a prefix |
| RateWindows.OldestIsFirst | src/http/rate-limiter.ts:110-122 | evicting the oldest removes the first entry |
| RateWindows.RetryAfterIsHonest | src/http/rate-limiter.ts:76-82 | a refused key is allowed at its next check once the announced seconds have passed, whatever other keys do; no smaller whole number would reach the reset |
| RateWindows.BoundedIsIdeal | src/http/rate-limiter.ts:56-122 | on every run that fits the map the answers equal those of an unbounded limiter with one window per key |
| RateWindows.AtMostBudgetPerWindow | src/http/rate-limiter.ts:56-90 | at most N attempts are allowed from the one that opens a window to its reset |
| RateWindows.AtMostTwoWindows | src/http/rate-limiter.ts:56-90 | at most 2N - 1 attempts are allowed in any half-open interval of one window length |
| RateWindows.BoundedAtMostTwoWindows | src/http/rate-limiter.ts:56-122 | the bounded limiter keeps that bound on every run that fits it |
| RateAnswers.AnswersExactly | src/http/rate-limiter.ts:56-122 | every answer on every run with a clock that does not go back and room for the running windows: allowed exactly while the attempt is among the first N of its window, with the window and count it has, and otherwise the least whole seconds to its reset |
| RateAnswers.IdealAnswersExactly | src/http/rate-limiter.ts:56-90 | the same for the unbounded limiter on every run and for every option |
| RateAnswers.WindowGrants | src/http/rate-limiter.ts:56-90 | from the attempt that opens a window to any moment before its reset the allowed attempts number exactly the smaller of those made and N, and are the first ones |
| RateOptions.FirstIsAllowed | src/http/rate-limiter.ts:60-66 | whatever the options, a first check is allowed and leaves one entry |
| RateOptions.WindowBoundExactly | src/http/rate-limiter.ts:56-90 | the configured attempts per window are kept on every monotone run exactly when at least one is configured (none, for windows without length) |
| RateOptions.FittingWindowBoundExactly | src/http/rate-limiter.ts:56-122 | the same for the bounded limiter with room for a key, on every run that fits it |
| RateOptions.IntervalBoundExactly | src/http/rate-limiter.ts:56-90 | twice the configured attempts less one are kept in every interval of a window's length exactly when at least one is configured |
| RateOptions.MapBoundExactly | src/http/rate-limiter.ts:93-98 | the configured number of entries is kept on every run exactly when it is at least one |
| RateOptions.EvictionForgets | src/http/rate-limiter.ts:93-122 | for windows of positive length, one key more than there is room for, taken in turn, lets the first key exceed any number of attempts in one window |
| RateOptions.AlwaysBoundExactly | src/http/rate-limiter.ts:56-122 | without the condition that a run fits, the per-window bound holds for no option with windows of positive length |
| CatalogueMap.MapSchemaCatalogue | src/database/schema-catalogue.ts:811-987 | succeeds exactly when every row is well-formed, has its parent and clashes with none, and then gives a strictly sorted catalogue of exactly what the rows say (field by field: CatalogueRows) |
| CatalogueMap.OrderIndependent | src/database/schema-catalogue.ts:811-987 | permuting any of the five row lists changes neither whether it succeeds nor the result |
| CatalogueMap.CatalogueUnique | src/database/schema-catalogue.ts:951-986 | the rows describe at most one catalogue |
| CatalogueMap.Lossless | src/database/schema-catalogue.ts:811-987 | rows and places correspond one to one at all five levels, children under their own table |
| CatalogueMap.ReadChildren | src/database/schema-catalogue.ts:870-949 | refuses orphans and clashes, and groups exactly the other rows by table |
| CatalogueMap.MappedShapes | src/database/schema-catalogue.ts:646-781 | a base type is present exactly for domains, references exactly for foreign keys, no columns exactly for checks, and null index columns only in expression indexes |
| CatalogueRows.TableRowReads | src/database/schema-catalogue.ts:834-868 | a table row gives a header exactly when each field of the row is what the header has, every other field being null |
| CatalogueRows.SchemaRowReads | src/database/schema-catalogue.ts:818-831 | the same for a schema and its owner |
| CatalogueRows.ColumnRowReads | src/database/schema-catalogue.ts:732-781 | the same for a column: ordinal, nullability, default, generation, identity, type and base type |
| CatalogueRows.ConstraintRowReads | src/database/schema-catalogue.ts:646-703 | the same for a constraint: its letter, own and referenced columns, target and actions |
| CatalogueRows.IndexRowReads | src/database/schema-catalogue.ts:705-730 | the same for an index: its flags, its class and its columns, null only in expression indexes |
| CatalogueRows.ReadingHoldsTheRows | src/database/schema-catalogue.ts:811-987 | in every reading rows and places correspond one to one at all five levels, each place holds what its row says in every field, and names ascend by code units and columns by ordinal |
| CatalogueRows.AcceptableIsWellformed | src/database/schema-catalogue.ts:811-949 | which row lists are read, over their fields: all rows well-formed, parents present, names and ordinals unique where they must be |
| Decimal.ExpansionIsExact | src/database/schema-ddl.ts:255-285 | for every signed mantissa with optional fraction and every integer exponent the text is plain decimal notation of exactly the mantissa times that power of ten |
| Decimal.PlacedValue | src/database/schema-ddl.ts:264-272 | each of the three ways to place the point scales the digits by the power of ten it moves |
| Token.DecodeInverts | src/auth/token.ts:13-23 | decoding inverts encoding for byte strings of every length |
| Token.EncodeInverts | src/auth/token.ts:33-59 | a text over the alphabet is an encoding exactly when its length and its pad bits allow it |
| Token.EncodingKeepsBits | src/auth/token.ts:13-23 | the characters carry the bytes' bits in order, padded with zero bits |
| Token.AlphabetIs | src/auth/token.ts:13-23 | the alphabet by value: upper case, lower case, digits, minus, underscore |
| Token.TokenBijection | src/auth/token.ts:33-59 | a text parses to a value exactly when the value has 32 bytes and is encoded as that text |
| Token.AcceptedTokens | src/auth/token.ts:33-59 | the accepted texts: 43 characters of the alphabet, the last leaving two zero bits |
| Token.GeneratedIsAccepted | src/auth/token.ts:13-67 | a generated token is accepted and hashes to the stored hash; different bytes give different tokens |
| Migrations.ListMigrationFiles | scripts/migrate.ts:107-157 | accepts a directory exactly when its SQL files are well named and their versions are 1 to n, and lists each file once in version order |
| Migrations.NameParts | scripts/migrate.ts:118-123 | a name is well formed exactly when it is four digits, an underscore, a description on one line and the suffix |
| Migrations.VersionIsWritten | scripts/migrate.ts:129-131 | the version is the number the four digits write |
| Migrations.ScanDecides | scripts/migrate.ts:137-154 | scanning the sorted list finds no gap or duplicate exactly when the versions, in any order, are 1 to n |
| Migrations.Migrate | scripts/migrate.ts:43-105 | commits exactly when no recorded file changed and every pending one executes; then executes and records exactly the pending files in order, otherwise changes nothing |
| Migrations.RunMeans | scripts/migrate.ts:71-96 | over the records and files: a run goes through exactly when recorded files are unchanged and the others work, and then has executed exactly the others by ascending version, recorded each, and touched nothing else |
| Migrations.SmallerListsPrefix | scripts/migrate.ts:107-157 | of two accepted directories, one with files of the other lists a prefix of it |
| Migrations.ExecutedIsPrefix | scripts/migrate.ts:43-105 | over any sequence of runs on parts of one accepted directory, in whatever order they commit, what has been executed is a prefix of its listing, each file once and recorded under the checksum of what ran |
| Migrations.ExecutedFromEmpty | scripts/migrate.ts:43-105 | the same from an empty database |
| Migrations.RepeatIsNoOp | scripts/migrate.ts:43-105 | repeating a committed run commits and changes nothing |
| Migrations.ChangedFileStops | scripts/migrate.ts:78-87 | a file changed after it ran stops every run that lists it |

## Left out

- SQL text, the driver, error codes and messages: statements and outcomes are abstract, and refusals of PostgreSQL beyond those modelled are the protocol's broken attempts.
- Other sessions that change the catalogue outside the protocol, and the one-time import running beside schema changes (it holds another lock).
- Policies and primary keys of an exposed table: the code guards them only in the preflight, or not at all, so they are no invariants of the protocol.
- Preflight refusals: the preflight is an arbitrary answer; what it reads and refuses (ownership, dependencies, row counts, null counts) is not modelled.
- Identifiers beyond 63 bytes, which PostgreSQL would shorten.
- Textual shapes of uuid, date, timestamp and jsonb defaults, and the quoting of literals.
- Values stored in columns, inside the protocol: a type change that fails on a value is one of its broken attempts, and the rows a NOT NULL check reads are not modelled.
- UTF-8 encoding and SHA-256 of the preimage; the actor fingerprint.
- Ownership.AcceptedRowsAreOwned: speaks of the policies the check read; a policy another session adds later is outside it.
- CatalogueMap.MapSchemaCatalogue: does not say which of several faults a refused reading reports, because every one is the same internal error.
- Refreshes in several server processes; the protocol of the refresher is that of one process.
- Getters, proxies and symbol keys in values tested for JSON; a node's own values are its content.
- The built-in sort, split and replace work as functions here, not in place.
- The base64url decoder's leniency towards characters outside the alphabet, which the shape test excludes first.
- HTTP routes, the admin interface, sessions and passwords beyond tokens, configuration, role and privilege probes at start-up, pools: single-branch plumbing.
