/**
 The check a table passes before it is exposed, and what passing it means under PostgreSQL's
 rule for combining row-security policies.
*/
module Ownership {
  import opened Common
  import Ddl
  import Commands

  type Template = Ddl.Template

  /** Uuids are numbered; a column without a value is null. */
  type Row = map<string, nat>

  datatype Truth = Yes | No | Unknown

  /** A policy expression: a column compared with the request identity, or any other one. */
  datatype Expr = Owns(column: string) | Other(id: nat)

  datatype Command = ForSelect | ForInsert | ForUpdate | ForDelete | ForAll

  datatype Roles = Everyone | Only(roles: set<string>)

  datatype Policy = Policy(
    name: string, command: Command, permissive: bool, roles: Roles,
    using: Option<Expr>, check: Option<Expr>)

  datatype ColumnInfo = ColumnInfo(name: string, dataType: string, generated: string, identity: string)

  datatype KeyPart = KeyPart(column: string, dataType: string)

  datatype Table = Table(
    name: string, owned: bool, rowSecurity: bool, forced: bool,
    primaryKey: seq<KeyPart>, columns: seq<ColumnInfo>, policies: seq<Policy>)

  /**
   What the server decides: the meaning of arbitrary expressions, how it deparses expressions
   on the pinned session, and the runtime role's memberships and the roles whose privileges it has.
  */
  datatype Server = Server(
    meaning: (nat, Option<nat>, Row) -> Truth,
    text: Expr -> string,
    memberOf: set<string>,
    privilegesOf: set<string>)

  // ---------- PostgreSQL's rule ----------

  function Eval(server: Server, e: Expr, user: Option<nat>, row: Row): Truth {
    match e
    case Owns(c) => if user.None? || c !in row then Unknown else if row[c] == user.value then Yes else No
    case Other(id) => server.meaning(id, user, row)
  }

  predicate InForce(server: Server, p: Policy, command: Command) {
    && (p.command == command || p.command.ForAll?)
    && (p.roles.Everyone? || exists role <- p.roles.roles :: role in server.privilegesOf)
  }

  function UsingClause(p: Policy): Option<Expr> {
    p.using
  }

  /** The clause consulted for a new row: WITH CHECK, or USING when there is none. */
  function NewRowClause(p: Policy): Option<Expr> {
    if p.check.Some? then p.check else p.using
  }

  predicate Holds(server: Server, clause: Option<Expr>, user: Option<nat>, row: Row) {
    clause.Some? && Eval(server, clause.value, user, row).Yes?
  }

  /** Some permissive clause holds, and every restrictive one. */
  ghost predicate Combine(
    server: Server, policies: seq<Policy>, clause: Policy -> Option<Expr>, command: Command, user: Option<nat>, row: Row)
  {
    && (exists i | 0 <= i < |policies| ::
          InForce(server, policies[i], command) && policies[i].permissive
          && Holds(server, clause(policies[i]), user, row))
    && (forall i | 0 <= i < |policies| ::
          InForce(server, policies[i], command) && !policies[i].permissive && clause(policies[i]).Some? ==>
            Holds(server, clause(policies[i]), user, row))
  }

  datatype Access = Selects(row: Row) | Inserts(row: Row) | Updates(from: Row, to: Row) | Deletes(row: Row)

  function Touched(a: Access): set<Row> {
    if a.Updates? then {a.from, a.to} else {a.row}
  }

  ghost predicate PoliciesPermit(server: Server, policies: seq<Policy>, user: Option<nat>, a: Access) {
    match a
    case Selects(row) => Combine(server, policies, UsingClause, ForSelect, user, row)
    case Inserts(row) => Combine(server, policies, NewRowClause, ForInsert, user, row)
    case Updates(from, to) =>
      && Combine(server, policies, UsingClause, ForUpdate, user, from)
      && Combine(server, policies, NewRowClause, ForUpdate, user, to)
    case Deletes(row) => Combine(server, policies, UsingClause, ForDelete, user, row)
  }

  /** Without row security, or for an owner it is not forced on, every row is open. */
  ghost predicate Permitted(server: Server, t: Table, user: Option<nat>, a: Access) {
    !t.rowSecurity || (t.owned && !t.forced) || PoliciesPermit(server, t.policies, user, a)
  }

  /** Equal renderings on the pinned session mean equally; having privileges implies membership. */
  ghost predicate Faithful(server: Server) {
    && (forall e, f, user, row :: server.text(e) == server.text(f) ==>
          Eval(server, e, user, row) == Eval(server, f, user, row))
    && server.privilegesOf <= server.memberOf
  }

  // ---------- module policies ----------

  function CommandOf(template: Template): Command {
    match template
    case Read => ForSelect
    case Insert => ForInsert
    case Update => ForUpdate
    case Delete => ForDelete
  }

  predicate RendersUsing(template: Template) {
    !template.Insert?
  }

  predicate RendersCheck(template: Template) {
    template.Insert? || template.Update?
  }

  datatype Identity = Identity(column: string, template: Template)

  function TemplateOfName(hash: string -> string, name: string, table: string, column: string): Option<Template> {
    if name == Commands.PolicyName(hash, table, column, Ddl.Read) then Some(Ddl.Read)
    else if name == Commands.PolicyName(hash, table, column, Ddl.Insert) then Some(Ddl.Insert)
    else if name == Commands.PolicyName(hash, table, column, Ddl.Update) then Some(Ddl.Update)
    else if name == Commands.PolicyName(hash, table, column, Ddl.Delete) then Some(Ddl.Delete)
    else None
  }

  /** The first identity a name is the module's name of, if there is one. */
  function ModuleIdentity(hash: string -> string, name: string, table: string, columns: seq<string>)
: Option<Identity>
  {
    if columns == [] then None
    else
      var template := TemplateOfName(hash, name, table, columns[0]);
      if template.Some? then Some(Identity(columns[0], template.value))
      else ModuleIdentity(hash, name, table, columns[1..])
  }

  lemma TemplateOfNameFinds(hash: string -> string, name: string, table: string, column: string)
    ensures var found := TemplateOfName(hash, name, table, column);
            && (found.Some? ==> name == Commands.PolicyName(hash, table, column, found.value))
            && (found.None? ==> forall t: Template :: name != Commands.PolicyName(hash, table, column, t))
  {
    forall t: Template | TemplateOfName(hash, name, table, column).None?
      ensures name != Commands.PolicyName(hash, table, column, t)
    {
      match t case Read => case Insert => case Update => case Delete =>
    }
  }

  lemma {:induction false} ModuleIdentityFinds(hash: string -> string, name: string, table: string, columns: seq<string>)
    ensures var found := ModuleIdentity(hash, name, table, columns);
            && (found.Some? ==>
                  && found.value.column in columns
                  && name == Commands.PolicyName(hash, table, found.value.column, found.value.template))
            && (found.None? ==> forall c, t | c in columns :: name != Commands.PolicyName(hash, table, c, t))
  {
    if columns != [] {
      TemplateOfNameFinds(hash, name, table, columns[0]);
      ModuleIdentityFinds(hash, name, table, columns[1..]);
    }
  }

  datatype Rendered = Rendered(using: Option<string>, check: Option<string>)

  function Text(text: Expr -> string, clause: Option<Expr>): Option<string> {
    if clause.None? then None else Some(text(clause.value))
  }

  /** What the server renders for a probe policy made from a template. */
  function Render(text: Expr -> string, column: string, template: Template): Rendered {
    Rendered(
      if RendersUsing(template) then Some(text(Owns(column))) else None,
      if RendersCheck(template) then Some(text(Owns(column))) else None)
  }

  function Deparse(text: Expr -> string, p: Policy): Rendered {
    Rendered(Text(text, p.using), Text(text, p.check))
  }

  /** A policy is the module's for a template: its name says so and it renders the same. */
  predicate Matches(text: Expr -> string, hash: string -> string, table: string, columns: seq<string>, p: Policy, template: Template) {
    var identity := ModuleIdentity(hash, p.name, table, columns);
    && identity.Some? && identity.value.template == template
    && Deparse(text, p) == Render(text, identity.value.column, template)
  }

  // ---------- the requirements ----------

  function ColumnNames(columns: seq<ColumnInfo>): seq<string> {
    seq(|columns|, i requires 0 <= i < |columns| => columns[i].name)
  }

  predicate Blank(c: char) {
    c in {'\t', '\n', '\U{B}', '\U{C}', '\r', ' ', '\U{A0}', '\U{1680}', '\U{2028}', '\U{2029}', '\U{202F}',
          '\U{205F}', '\U{3000}', '\U{FEFF}'} || '\U{2000}' <= c <= '\U{200A}'
  }

  function Trimmed(s: string): string {
    if s != "" && Blank(s[0]) then Trimmed(s[1..])
    else if s != "" && Blank(s[|s| - 1]) then Trimmed(s[..|s| - 1])
    else s
  }

  function NormalType(typeName: string): string {
    var lower := Trimmed(Commands.Lower(typeName));
    if lower == "character varying" then "varchar"
    else if lower == "timestamp without time zone" then "timestamp"
    else if lower == "timestamp with time zone" then "timestamptz"
    else lower
  }

  const SUPPORTED := {
    "uuid", "text", "varchar", "character varying", "char", "character", "boolean", "bool", "smallint",
    "integer", "int", "int4", "real", "float4", "double precision", "float8", "bigint", "int8", "numeric",
    "decimal", "date", "timestamp without time zone", "timestamp", "timestamp with time zone", "timestamptz",
    "json", "jsonb"
  }

  predicate Readable(c: ColumnInfo) {
    NormalType(c.dataType) in SUPPORTED
  }

  predicate Insertable(c: ColumnInfo) {
    Readable(c) && c.generated == "" && c.identity == ""
  }

  predicate Updatable(c: ColumnInfo) {
    Insertable(c) && c.name != "id"
  }

  /** The names of the columns that satisfy a predicate, in column order. */
  function Filtered(columns: seq<ColumnInfo>, keep: ColumnInfo -> bool): seq<string> {
    if columns == [] then []
    else
      var n := |columns| - 1;
      Filtered(columns[..n], keep) + (if keep(columns[n]) then [columns[n].name] else [])
  }

  datatype Verification = Verification(readable: seq<string>, insertable: seq<string>, updatable: seq<string>)

  function Contract(columns: seq<ColumnInfo>): Verification {
    Verification(Filtered(columns, Readable), Filtered(columns, Insertable), Filtered(columns, Updatable))
  }

  datatype Refusal =
    | NoTable
    | RowSecurityOff
    | NotForced
    | NoSingleColumnKey
    | KeyNotNamedId
    | KeyNotUuid
    | NoReadableColumns
    | NoInsertableColumns
    | NoUpdatableColumns
    | NoManagedPolicy(template: Template)
    | BroaderPolicy(template: Template)

  predicate Listed(server: Server, p: Policy) {
    p.roles.Everyone? || exists role <- p.roles.roles :: role in server.memberOf
  }

  predicate Serves(server: Server, p: Policy, template: Template) {
    Listed(server, p) && (p.command == CommandOf(template) || p.command == ForAll)
  }

  predicate MatchesAt(server: Server, hash: string -> string, t: Table, template: Template, i: nat)
    requires i < |t.policies|
  {
    Matches(server.text, hash, t.name, ColumnNames(t.columns), t.policies[i], template)
  }

  predicate ManagedAt(server: Server, hash: string -> string, t: Table, template: Template, i: nat)
    requires i < |t.policies|
  {
    Serves(server, t.policies[i], template) && MatchesAt(server, hash, t, template, i)
  }

  predicate BroaderAt(server: Server, hash: string -> string, t: Table, template: Template, i: nat)
    requires i < |t.policies|
  {
    Serves(server, t.policies[i], template) && t.policies[i].permissive && !MatchesAt(server, hash, t, template, i)
  }

  predicate HasManaged(server: Server, hash: string -> string, t: Table, template: Template) {
    exists i | 0 <= i < |t.policies| :: ManagedAt(server, hash, t, template, i)
  }

  predicate HasBroader(server: Server, hash: string -> string, t: Table, template: Template) {
    exists i | 0 <= i < |t.policies| :: BroaderAt(server, hash, t, template, i)
  }

  /** The table breaks the requirement a refusal names. */
  predicate Violates(server: Server, hash: string -> string, found: Option<Table>, refusal: Refusal) {
    match refusal
    case NoTable => found.None?
    case RowSecurityOff => found.Some? && !found.value.rowSecurity
    case NotForced => found.Some? && !found.value.forced
    case NoSingleColumnKey => found.Some? && |found.value.primaryKey| != 1
    case KeyNotNamedId => found.Some? && |found.value.primaryKey| == 1 && found.value.primaryKey[0].column != "id"
    case KeyNotUuid =>
      found.Some? && |found.value.primaryKey| == 1 && NormalType(found.value.primaryKey[0].dataType) != "uuid"
    case NoReadableColumns => found.Some? && Contract(found.value.columns).readable == []
    case NoInsertableColumns => found.Some? && Contract(found.value.columns).insertable == []
    case NoUpdatableColumns => found.Some? && Contract(found.value.columns).updatable == []
    case NoManagedPolicy(template) => found.Some? && !HasManaged(server, hash, found.value, template)
    case BroaderPolicy(template) => found.Some? && HasBroader(server, hash, found.value, template)
  }

  ghost predicate Accepted(server: Server, hash: string -> string, found: Option<Table>) {
    forall refusal: Refusal :: !Violates(server, hash, found, refusal)
  }

  /** A table's policy names are unique, as the catalogue guarantees. */
  ghost predicate UniqueNames(policies: seq<Policy>) {
    forall i, j | 0 <= i < j < |policies| :: policies[i].name != policies[j].name
  }

  // ---------- the check ----------

  function CacheKey(column: string, template: Template): string {
    column + ":" + Commands.TemplateName(template)
  }

  lemma CacheKeyInjective(column: string, template: Template, column': string, template': Template)
    requires CacheKey(column, template) == CacheKey(column', template')
    ensures column == column' && template == template'
  {
    var key := CacheKey(column, template);
    assert key[|key| - 1] == Commands.TemplateName(template)[|Commands.TemplateName(template)| - 1];
    assert key[|key| - 1] == Commands.TemplateName(template')[|Commands.TemplateName(template')| - 1];
    assert key[|key| - 2] == Commands.TemplateName(template)[|Commands.TemplateName(template)| - 2];
    assert key[|key| - 2] == Commands.TemplateName(template')[|Commands.TemplateName(template')| - 2];
    assert key[|key| - 3] == Commands.TemplateName(template)[|Commands.TemplateName(template)| - 3];
    assert key[|key| - 3] == Commands.TemplateName(template')[|Commands.TemplateName(template')| - 3];
    assert template == template';
    assert column == key[..|key| - 1 - |Commands.TemplateName(template)|];
    assert column' == key[..|key| - 1 - |Commands.TemplateName(template')|];
  }

  /** The renderings asked for so far, each asked for once. */
  class Comparisons {
    var rendered: map<string, Rendered>
    var deparsed: map<string, Rendered>

    ghost predicate Valid(text: Expr -> string, policies: seq<Policy>)
      reads this
    {
      && (forall column, template :: CacheKey(column, template) in rendered ==>
            rendered[CacheKey(column, template)] == Render(text, column, template))
      && (forall i | 0 <= i < |policies| :: policies[i].name in deparsed ==>
            deparsed[policies[i].name] == Deparse(text, policies[i]))
    }

    constructor (ghost text: Expr -> string, ghost policies: seq<Policy>)
      ensures Valid(text, policies)
    {
      rendered, deparsed := map[], map[];
    }

    /** What a template renders to on a column, asked for at most once. */
    method Expected(text: Expr -> string, ghost policies: seq<Policy>, column: string, template: Template)
      returns (expected: Rendered)
      requires Valid(text, policies)
      modifies this`rendered
      ensures Valid(text, policies)
      ensures expected == Render(text, column, template)
    {
      var key := CacheKey(column, template);
      if key !in rendered {
        forall column', template' | CacheKey(column', template') == key
          ensures column' == column && template' == template
        {
          CacheKeyInjective(column', template', column, template);
        }
        rendered := rendered[key := Render(text, column, template)];
      }
      return rendered[key];
    }

    /** What a policy's own clauses render to, asked for at most once. */
    method Actual(text: Expr -> string, policies: seq<Policy>, i: nat) returns (actual: Rendered)
      requires i < |policies| && UniqueNames(policies) && Valid(text, policies)
      modifies this`deparsed
      ensures Valid(text, policies)
      ensures actual == Deparse(text, policies[i])
    {
      var p := policies[i];
      if p.name !in deparsed {
        deparsed := deparsed[p.name := Deparse(text, p)];
      }
      return deparsed[p.name];
    }

    method MatchesModulePolicy(text: Expr -> string, hash: string -> string, t: Table, i: nat, template: Template)
      returns (matches: bool)
      requires i < |t.policies| && UniqueNames(t.policies) && Valid(text, t.policies)
      modifies this
      ensures Valid(text, t.policies)
      ensures matches == Matches(text, hash, t.name, ColumnNames(t.columns), t.policies[i], template)
    {
      var p := t.policies[i];
      var identity := ModuleIdentity(hash, p.name, t.name, ColumnNames(t.columns));
      if identity.None? || identity.value.template != template {
        return false;
      }
      var expected := Expected(text, t.policies, identity.value.column, template);
      var actual := Actual(text, t.policies, i);
      if RendersUsing(template) && actual.using != expected.using {
        return false;
      }
      if !RendersUsing(template) && actual.using.Some? {
        return false;
      }
      if RendersCheck(template) && actual.check != expected.check {
        return false;
      }
      if !RendersCheck(template) && actual.check.Some? {
        return false;
      }
      return true;
    }
  }

  const EXERCISED: seq<Template> := [Ddl.Read, Ddl.Insert, Ddl.Update, Ddl.Delete]

  function Position(template: Template): (i: nat)
    ensures i < 4 && EXERCISED[i] == template
  {
    match template case Read => 0 case Insert => 1 case Update => 2 case Delete => 3
  }

  /** Asks of one policy whether it serves a command and is the module's. */
  method MatchOne(server: Server, hash: string -> string, t: Table, template: Template, i: nat, comparisons: Comparisons)
    returns (b: bool)
    requires UniqueNames(t.policies) && comparisons.Valid(server.text, t.policies) && i < |t.policies|
    modifies comparisons
    ensures comparisons.Valid(server.text, t.policies)
    ensures b == ManagedAt(server, hash, t, template, i)
  {
    b := false;
    if Serves(server, t.policies[i], template) {
      b := comparisons.MatchesModulePolicy(server.text, hash, t, i, template);
    }
  }

  /** The answers for the first policies. */
  ghost predicate Matched(server: Server, hash: string -> string, t: Table, template: Template, matches: seq<bool>) {
    |matches| <= |t.policies| && forall i | 0 <= i < |matches| :: matches[i] == ManagedAt(server, hash, t, template, i)
  }

  lemma MatchedStep(server: Server, hash: string -> string, t: Table, template: Template, matches: seq<bool>, b: bool)
    requires Matched(server, hash, t, template, matches) && |matches| < |t.policies|
    requires b == ManagedAt(server, hash, t, template, |matches|)
    ensures Matched(server, hash, t, template, matches + [b])
  {
  }

  /** Asks of every policy that serves a command whether it is the module's. */
  method MatchAll(server: Server, hash: string -> string, t: Table, template: Template, comparisons: Comparisons)
    returns (matches: seq<bool>)
    requires UniqueNames(t.policies) && comparisons.Valid(server.text, t.policies)
    modifies comparisons
    ensures comparisons.Valid(server.text, t.policies)
    ensures Matched(server, hash, t, template, matches) && |matches| == |t.policies|
  {
    matches := [];
    for i := 0 to |t.policies|
      invariant comparisons.Valid(server.text, t.policies)
      invariant Matched(server, hash, t, template, matches) && |matches| == i
    {
      var b := MatchOne(server, hash, t, template, i, comparisons);
      MatchedStep(server, hash, t, template, matches, b);
      matches := matches + [b];
    }
  }

  /** The two policy requirements of one command. */
  method CheckCommand(server: Server, hash: string -> string, t: Table, template: Template, comparisons: Comparisons)
    returns (refusal: Option<Refusal>)
    requires UniqueNames(t.policies) && comparisons.Valid(server.text, t.policies)
    modifies comparisons
    ensures comparisons.Valid(server.text, t.policies)
    ensures refusal == PolicyRefusal(server, hash, t, template)
  {
    var matches := MatchAll(server, hash, t, template, comparisons);
    var managed := exists i | 0 <= i < |matches| :: matches[i];
    var broader := exists i | 0 <= i < |matches| ::
      Serves(server, t.policies[i], template) && t.policies[i].permissive && !matches[i];
    CountedAll(server, hash, t, template, matches);
    refusal := if !managed then Some(NoManagedPolicy(template))
               else if broader then Some(BroaderPolicy(template))
               else None;
  }

  function PolicyRefusal(server: Server, hash: string -> string, t: Table, template: Template): Option<Refusal> {
    if !HasManaged(server, hash, t, template) then Some(NoManagedPolicy(template))
    else if HasBroader(server, hash, t, template) then Some(BroaderPolicy(template))
    else None
  }

  lemma CountedAll(server: Server, hash: string -> string, t: Table, template: Template, matches: seq<bool>)
    requires Matched(server, hash, t, template, matches) && |matches| == |t.policies|
    ensures HasManaged(server, hash, t, template) <==> exists i | 0 <= i < |matches| :: matches[i]
    ensures HasBroader(server, hash, t, template) <==> exists i | 0 <= i < |matches| ::
              Serves(server, t.policies[i], template) && t.policies[i].permissive && !matches[i]
  {
    forall i | 0 <= i < |matches|
      ensures BroaderAt(server, hash, t, template, i)
              == (Serves(server, t.policies[i], template) && t.policies[i].permissive && !matches[i])
    {
    }
  }

  /** The column contract: the names by what the runtime role will be granted. */
  method ColumnContract(columns: seq<ColumnInfo>) returns (v: Verification)
    ensures v == Contract(columns)
  {
    var readable, insertable, updatable := [], [], [];
    for i := 0 to |columns|
      invariant readable == Filtered(columns[..i], Readable)
      invariant insertable == Filtered(columns[..i], Insertable)
      invariant updatable == Filtered(columns[..i], Updatable)
    {
      assert columns[..i + 1][..i] == columns[..i];
      var row := columns[i];
      var generated, identity := row.generated != "", row.identity != "";
      var supported := NormalType(row.dataType) in SUPPORTED;
      if supported {
        readable := readable + [row.name];
      }
      if supported && !generated && !identity {
        insertable := insertable + [row.name];
      }
      if supported && row.name != "id" && !generated && !identity {
        updatable := updatable + [row.name];
      }
    }
    assert columns[..|columns|] == columns;
    return Verification(readable, insertable, updatable);
  }

  /** The order in which the requirements are checked. */
  function Rank(refusal: Refusal): nat {
    match refusal
    case NoTable => 0
    case RowSecurityOff => 1
    case NotForced => 2
    case NoSingleColumnKey => 3
    case KeyNotNamedId => 4
    case KeyNotUuid => 5
    case NoReadableColumns => 6
    case NoInsertableColumns => 7
    case NoUpdatableColumns => 8
    case NoManagedPolicy(template) => 9 + 2 * Position(template)
    case BroaderPolicy(template) => 10 + 2 * Position(template)
  }

  /** The requirement is broken, and none that is checked before it is. */
  ghost predicate FirstBroken(server: Server, hash: string -> string, found: Option<Table>, refusal: Refusal) {
    && Violates(server, hash, found, refusal)
    && forall other: Refusal | Rank(other) < Rank(refusal) :: !Violates(server, hash, found, other)
  }

  ghost predicate FirstRefused(server: Server, hash: string -> string, t: Table, template: Template, refusal: Option<Refusal>) {
    && refusal == PolicyRefusal(server, hash, t, template) && refusal.Some?
    && forall other: Template | Position(other) < Position(template) :: PolicyRefusal(server, hash, t, other).None?
  }

  lemma RefusedFirst(server: Server, hash: string -> string, t: Table, template: Template, refusal: Refusal)
    requires FirstRefused(server, hash, t, template, Some(refusal))
    requires forall other: Refusal :: OnPolicies(other) || !Violates(server, hash, Some(t), other)
    ensures FirstBroken(server, hash, Some(t), refusal)
  {
    RefusedViolates(server, hash, t, template);
    forall other: Refusal | Rank(other) < Rank(refusal) ensures !Violates(server, hash, Some(t), other) {
      if OnPolicies(other) && Position(other.template) < Position(template) {
        NoneViolated(server, hash, t, other.template);
      }
    }
  }

  lemma NoneViolated(server: Server, hash: string -> string, t: Table, template: Template)
    requires PolicyRefusal(server, hash, t, template).None?
    ensures !Violates(server, hash, Some(t), NoManagedPolicy(template))
    ensures !Violates(server, hash, Some(t), BroaderPolicy(template))
  {
  }

  /** Every requirement but those on policies, in the order they are checked. */
  method CheckShape(server: Server, hash: string -> string, t: Table) returns (r: Result<Verification, Refusal>)
    ensures r.Ok? ==> r.value == Contract(t.columns)
    ensures r.Ok? <==> forall refusal: Refusal ::
                refusal.NoManagedPolicy? || refusal.BroaderPolicy? || !Violates(server, hash, Some(t), refusal)
    ensures r.Err? ==> !OnPolicies(r.error) && FirstBroken(server, hash, Some(t), r.error)
  {
    if !t.rowSecurity {
      r := Err(RowSecurityOff);
    } else if !t.forced {
      r := Err(NotForced);
    } else if |t.primaryKey| != 1 {
      r := Err(NoSingleColumnKey);
    } else if t.primaryKey[0].column != "id" {
      r := Err(KeyNotNamedId);
    } else if NormalType(t.primaryKey[0].dataType) != "uuid" {
      r := Err(KeyNotUuid);
    } else {
      var contract := ColumnContract(t.columns);
      r := if contract.readable == [] then Err(NoReadableColumns)
           else if contract.insertable == [] then Err(NoInsertableColumns)
           else if contract.updatable == [] then Err(NoUpdatableColumns)
           else Ok(contract);
    }
    assert r.Err? ==> FirstBroken(server, hash, Some(t), r.error);
  }

  /** The policy requirements of the four commands the data API exercises. */
  method CheckPolicies(server: Server, hash: string -> string, t: Table) returns (refusal: Option<Refusal>)
    requires UniqueNames(t.policies)
    ensures refusal.None? <==> forall template: Template :: PolicyRefusal(server, hash, t, template).None?
    ensures refusal.Some? ==> exists template: Template :: FirstRefused(server, hash, t, template, refusal)
  {
    var comparisons := new Comparisons(server.text, t.policies);
    for i := 0 to |EXERCISED|
      invariant comparisons.Valid(server.text, t.policies) && fresh(comparisons)
      invariant forall j | 0 <= j < i :: PolicyRefusal(server, hash, t, EXERCISED[j]).None?
    {
      refusal := CheckCommand(server, hash, t, EXERCISED[i], comparisons);
      if refusal.Some? {
        forall template: Template | Position(template) < i
          ensures PolicyRefusal(server, hash, t, template).None?
        {
          assert EXERCISED[Position(template)] == template;
        }
        assert FirstRefused(server, hash, t, EXERCISED[i], refusal);
        return;
      }
    }
    forall template: Template ensures PolicyRefusal(server, hash, t, template).None? {
      assert EXERCISED[Position(template)] == template;
    }
    return None;
  }

  lemma PolicyRefusals(server: Server, hash: string -> string, t: Table)
    ensures forall template: Template :: PolicyRefusal(server, hash, t, template).None? <==>
              !Violates(server, hash, Some(t), NoManagedPolicy(template))
              && !Violates(server, hash, Some(t), BroaderPolicy(template))
  {
    forall template: Template
      ensures PolicyRefusal(server, hash, t, template).None? <==>
                !Violates(server, hash, Some(t), NoManagedPolicy(template))
                && !Violates(server, hash, Some(t), BroaderPolicy(template))
    {
      if PolicyRefusal(server, hash, t, template).None? {
        NoneViolated(server, hash, t, template);
      } else {
        RefusedViolates(server, hash, t, template);
      }
    }
  }

  /** Accepts exactly the tables that break no requirement; a refusal names the first that is broken. */
  method VerifyExposureCandidate(server: Server, hash: string -> string, found: Option<Table>)
    returns (r: Result<Verification, Refusal>)
    requires found.Some? ==> UniqueNames(found.value.policies)
    ensures r.Ok? <==> Accepted(server, hash, found)
    ensures r.Err? ==> FirstBroken(server, hash, found, r.error)
    ensures r.Ok? ==> found.Some? && r.value == Contract(found.value.columns)
    ensures r.Ok? ==> ContractRight(found.value.columns, r.value)
  {
    if found.Some? {
      ContractIsRight(found.value.columns);
    }
    if found.None? {
      assert FirstBroken(server, hash, found, NoTable);
      return Err(NoTable);
    }
    r := CheckShape(server, hash, found.value);
    if r.Ok? {
      var refusal := CheckPolicies(server, hash, found.value);
      PolicyRefusals(server, hash, found.value);
      if refusal.Some? {
        ghost var template: Template :| FirstRefused(server, hash, found.value, template, refusal);
        RefusedFirst(server, hash, found.value, template, refusal.value);
        r := Err(refusal.value);
      }
    }
  }

  // ---------- the column contract ----------

  /** The names of exactly the columns wanted, each once, in column order. */
  ghost predicate Picks(names: seq<string>, columns: seq<ColumnInfo>, want: ColumnInfo -> bool) {
    exists at: seq<nat> :: PicksAt(names, columns, want, at)
  }

  ghost predicate PicksAt(names: seq<string>, columns: seq<ColumnInfo>, want: ColumnInfo -> bool, at: seq<nat>) {
    && |at| == |names|
    && (forall k | 0 <= k < |at| :: at[k] < |columns| && want(columns[at[k]]) && names[k] == columns[at[k]].name)
    && (forall j, k | 0 <= j < k < |at| :: at[j] < at[k])
    && (forall i | 0 <= i < |columns| && want(columns[i]) :: i in at)
  }

  predicate TypeSupported(dataType: string) {
    Trimmed(Commands.Lower(dataType)) in {
      "uuid", "text", "varchar", "character varying", "char", "character", "boolean", "bool", "smallint",
      "integer", "int", "int4", "real", "float4", "double precision", "float8", "bigint", "int8", "numeric",
      "decimal", "date", "timestamp without time zone", "timestamp", "timestamp with time zone", "timestamptz",
      "json", "jsonb"
    }
  }

  function NotId(names: seq<string>): seq<string> {
    if names == [] then []
    else
      var n := |names| - 1;
      NotId(names[..n]) + (if names[n] == "id" then [] else [names[n]])
  }

  /** The lists an accepted table's grants are made from, over its columns as the catalogue gives them. */
  ghost predicate ContractRight(columns: seq<ColumnInfo>, v: Verification) {
    && Picks(v.readable, columns, (c: ColumnInfo) => TypeSupported(c.dataType))
    && Picks(v.insertable, columns, (c: ColumnInfo) => TypeSupported(c.dataType) && c.generated == "" && c.identity == "")
    && Picks(v.updatable, columns,
             (c: ColumnInfo) => TypeSupported(c.dataType) && c.generated == "" && c.identity == "" && c.name != "id")
    && "id" !in v.updatable && v.updatable == NotId(v.insertable)
  }

  function Positions(columns: seq<ColumnInfo>, keep: ColumnInfo -> bool): seq<nat> {
    if columns == [] then []
    else
      var n := |columns| - 1;
      Positions(columns[..n], keep) + (if keep(columns[n]) then [n] else [])
  }

  lemma {:induction false} FilteredAt(columns: seq<ColumnInfo>, keep: ColumnInfo -> bool)
    ensures PicksAt(Filtered(columns, keep), columns, keep, Positions(columns, keep))
  {
    if columns != [] {
      var n := |columns| - 1;
      FilteredAt(columns[..n], keep);
      var front, at := Positions(columns[..n], keep), Positions(columns, keep);
      assert forall i | 0 <= i < n && keep(columns[i]) :: columns[..n][i] == columns[i] && i in front;
    }
  }

  lemma SupportedMeans(c: ColumnInfo)
    ensures Readable(c) <==> TypeSupported(c.dataType)
  {
  }

  lemma PickedSame(names: seq<string>, columns: seq<ColumnInfo>, want: ColumnInfo -> bool, want': ColumnInfo -> bool, at: seq<nat>)
    requires PicksAt(names, columns, want, at) && forall c :: want(c) <==> want'(c)
    ensures Picks(names, columns, want')
  {
    assert PicksAt(names, columns, want', at);
  }

  lemma {:induction false} UpdatableIsNotId(columns: seq<ColumnInfo>)
    ensures Filtered(columns, Updatable) == NotId(Filtered(columns, Insertable)) && "id" !in Filtered(columns, Updatable)
  {
    if columns != [] {
      var n := |columns| - 1;
      UpdatableIsNotId(columns[..n]);
      var front, name := Filtered(columns[..n], Insertable), columns[n].name;
      assert (front + [name])[..|front|] == front;
      assert front + [] == front;
    }
  }

  lemma ContractIsRight(columns: seq<ColumnInfo>)
    ensures ContractRight(columns, Contract(columns))
  {
    forall c: ColumnInfo ensures Readable(c) <==> TypeSupported(c.dataType) {
      SupportedMeans(c);
    }
    FilteredAt(columns, Readable);
    PickedSame(Filtered(columns, Readable), columns, Readable, (c: ColumnInfo) => TypeSupported(c.dataType),
               Positions(columns, Readable));
    FilteredAt(columns, Insertable);
    PickedSame(Filtered(columns, Insertable), columns, Insertable,
               (c: ColumnInfo) => TypeSupported(c.dataType) && c.generated == "" && c.identity == "",
               Positions(columns, Insertable));
    FilteredAt(columns, Updatable);
    PickedSame(Filtered(columns, Updatable), columns, Updatable,
               (c: ColumnInfo) => TypeSupported(c.dataType) && c.generated == "" && c.identity == "" && c.name != "id",
               Positions(columns, Updatable));
    UpdatableIsNotId(columns);
  }

  /** Trimming takes blanks off both ends and nothing else. */
  lemma {:induction false} TrimmedIs(s: string) returns (left: nat, right: nat)
    ensures left <= right <= |s| && Trimmed(s) == s[left..right]
    ensures forall i | 0 <= i < |s| && (i < left || right <= i) :: Blank(s[i])
    ensures left < right ==> !Blank(s[left]) && !Blank(s[right - 1])
  {
    if s != "" && Blank(s[0]) {
      left, right := TrimmedIs(s[1..]);
      left, right := left + 1, right + 1;
      assert forall i | 1 <= i < |s| :: s[i] == s[1..][i - 1];
    } else if s != "" && Blank(s[|s| - 1]) {
      left, right := TrimmedIs(s[..|s| - 1]);
    } else {
      left, right := 0, |s|;
    }
  }

  // ---------- what acceptance means ----------

  ghost predicate OwnedBy(t: Table, user: Option<nat>, row: Row) {
    user.Some? && exists c :: c in ColumnNames(t.columns) && c in row && row[c] == user.value
  }

  lemma ServesWhenInForce(server: Server, p: Policy, template: Template)
    requires Faithful(server) && InForce(server, p, CommandOf(template))
    ensures Serves(server, p, template)
  {
  }

  /** A clause of a module policy that holds of a row says that the row is the user's. */
  lemma ClauseOwns(server: Server, hash: string -> string, t: Table, p: Policy, template: Template,
                   clause: Option<Expr>, user: Option<nat>, row: Row)
    requires Faithful(server) && Matches(server.text, hash, t.name, ColumnNames(t.columns), p, template)
    requires clause == p.using || clause == p.check
    requires Holds(server, clause, user, row)
    ensures OwnedBy(t, user, row)
  {
    var column := ModuleIdentity(hash, p.name, t.name, ColumnNames(t.columns)).value.column;
    ModuleIdentityFinds(hash, p.name, t.name, ColumnNames(t.columns));
    assert server.text(clause.value) == server.text(Owns(column));
    assert Eval(server, Owns(column), user, row) == Eval(server, clause.value, user, row);
  }

  lemma CombinedOwns(server: Server, hash: string -> string, t: Table, template: Template,
                     clause: Policy -> Option<Expr>, user: Option<nat>, row: Row)
    requires Faithful(server) && !HasBroader(server, hash, t, template)
    requires forall p :: clause(p) == p.using || clause(p) == p.check
    requires Combine(server, t.policies, clause, CommandOf(template), user, row)
    ensures OwnedBy(t, user, row)
  {
    var i :| 0 <= i < |t.policies| && InForce(server, t.policies[i], CommandOf(template)) && t.policies[i].permissive
             && Holds(server, clause(t.policies[i]), user, row);
    ServesWhenInForce(server, t.policies[i], template);
    assert !BroaderAt(server, hash, t, template, i);
    ClauseOwns(server, hash, t, t.policies[i], template, clause(t.policies[i]), user, row);
  }

  lemma AcceptedPolicies(server: Server, hash: string -> string, t: Table)
    requires Accepted(server, hash, Some(t))
    ensures t.rowSecurity && t.forced && forall template :: !HasBroader(server, hash, t, template)
  {
    assert !Violates(server, hash, Some(t), RowSecurityOff);
    assert !Violates(server, hash, Some(t), NotForced);
    forall template ensures !HasBroader(server, hash, t, template) {
      assert !Violates(server, hash, Some(t), BroaderPolicy(template));
    }
  }

  /** The policy is listed for the role and serves the command. */
  ghost predicate Concerns(server: Server, p: Policy, command: Command) {
    && (p.roles.Everyone? || p.roles.roles * server.memberOf != {})
    && (p.command == command || p.command == ForAll)
  }

  ghost predicate Written(server: Server, clause: Option<Expr>, column: string) {
    clause.Some? && server.text(clause.value) == server.text(Owns(column))
  }

  /** The policy has a name of the module and exactly the ownership clauses that name stands for. */
  ghost predicate OwnPolicy(server: Server, hash: string -> string, t: Table, p: Policy, template: Template, column: string) {
    && column in ColumnNames(t.columns) && p.name == Commands.PolicyName(hash, t.name, column, template)
    && match template
       case Read => Written(server, p.using, column) && p.check.None?
       case Insert => p.using.None? && Written(server, p.check, column)
       case Update => Written(server, p.using, column) && Written(server, p.check, column)
       case Delete => Written(server, p.using, column) && p.check.None?
  }

  ghost predicate HasOwn(server: Server, hash: string -> string, t: Table, p: Policy, template: Template) {
    exists column :: OwnPolicy(server, hash, t, p, template, column)
  }

  /** One policy of the module serves the command, and every permissive one that does is the module's. */
  ghost predicate OwnOnly(server: Server, hash: string -> string, t: Table, command: Command, template: Template) {
    && (exists i | 0 <= i < |t.policies| ::
          Concerns(server, t.policies[i], command) && HasOwn(server, hash, t, t.policies[i], template))
    && (forall i | 0 <= i < |t.policies| && Concerns(server, t.policies[i], command) && t.policies[i].permissive ::
          HasOwn(server, hash, t, t.policies[i], template))
  }

  /** Every command of the data API is served by the module's policies and by no broader one. */
  ghost predicate PoliciesRight(server: Server, hash: string -> string, t: Table) {
    && OwnOnly(server, hash, t, ForSelect, Ddl.Read) && OwnOnly(server, hash, t, ForInsert, Ddl.Insert)
    && OwnOnly(server, hash, t, ForUpdate, Ddl.Update) && OwnOnly(server, hash, t, ForDelete, Ddl.Delete)
  }

  /** What a table must be like, over its catalogue rows and policies. */
  ghost predicate Qualifies(server: Server, hash: string -> string, t: Table) {
    ShapeQualifies(t) && PoliciesRight(server, hash, t)
  }

  lemma MatchesMeans(server: Server, hash: string -> string, t: Table, p: Policy, template: Template)
    ensures Matches(server.text, hash, t.name, ColumnNames(t.columns), p, template) ==> HasOwn(server, hash, t, p, template)
    ensures NamesDistinct(hash, t.name, ColumnNames(t.columns)) && HasOwn(server, hash, t, p, template) ==>
              Matches(server.text, hash, t.name, ColumnNames(t.columns), p, template)
  {
    var names := ColumnNames(t.columns);
    ModuleIdentityFinds(hash, p.name, t.name, names);
    var identity := ModuleIdentity(hash, p.name, t.name, names);
    if Matches(server.text, hash, t.name, names, p, template) {
      RenderedIs(server.text, p, identity.value.column, template);
      assert OwnPolicy(server, hash, t, p, template, identity.value.column);
    }
    if NamesDistinct(hash, t.name, names) && HasOwn(server, hash, t, p, template) {
      var column :| OwnPolicy(server, hash, t, p, template, column);
      RenderedIs(server.text, p, column, template);
      assert identity == Some(Identity(column, template));
    }
  }

  lemma RenderedIs(text: Expr -> string, p: Policy, column: string, template: Template)
    ensures Deparse(text, p) == Render(text, column, template) <==>
      match template
      case Read => p.using.Some? && text(p.using.value) == text(Owns(column)) && p.check.None?
      case Insert => p.using.None? && p.check.Some? && text(p.check.value) == text(Owns(column))
      case Update =>
        p.using.Some? && text(p.using.value) == text(Owns(column)) && p.check.Some? && text(p.check.value) == text(Owns(column))
      case Delete => p.using.Some? && text(p.using.value) == text(Owns(column)) && p.check.None?
  {
  }

  lemma ConcernsMeans(server: Server, p: Policy, template: Template)
    ensures Serves(server, p, template) <==> Concerns(server, p, CommandOf(template))
  {
    if !p.roles.Everyone? {
      if role :| role in p.roles.roles && role in server.memberOf {
        assert role in p.roles.roles * server.memberOf;
      }
      if role :| role in p.roles.roles * server.memberOf {
        assert role in p.roles.roles;
      }
    }
  }

  lemma PoliciesMean(server: Server, hash: string -> string, t: Table, template: Template)
    ensures PolicyRefusal(server, hash, t, template).None? ==> OwnOnly(server, hash, t, CommandOf(template), template)
    ensures NamesDistinct(hash, t.name, ColumnNames(t.columns)) && OwnOnly(server, hash, t, CommandOf(template), template) ==>
              PolicyRefusal(server, hash, t, template).None?
  {
    forall i | 0 <= i < |t.policies|
      ensures MatchesAt(server, hash, t, template, i) ==> HasOwn(server, hash, t, t.policies[i], template)
      ensures NamesDistinct(hash, t.name, ColumnNames(t.columns)) && HasOwn(server, hash, t, t.policies[i], template) ==>
                MatchesAt(server, hash, t, template, i)
      ensures Serves(server, t.policies[i], template) <==> Concerns(server, t.policies[i], CommandOf(template))
    {
      MatchesMeans(server, hash, t, t.policies[i], template);
      ConcernsMeans(server, t.policies[i], template);
    }
    PolicyRefusalMeans(server, hash, t, template);
  }

  lemma PolicyRefusalMeans(server: Server, hash: string -> string, t: Table, template: Template)
    ensures PolicyRefusal(server, hash, t, template).None? <==>
      && (exists i | 0 <= i < |t.policies| ::
            Serves(server, t.policies[i], template) && MatchesAt(server, hash, t, template, i))
      && (forall i | 0 <= i < |t.policies| && Serves(server, t.policies[i], template) && t.policies[i].permissive ::
            MatchesAt(server, hash, t, template, i))
  {
    if i :| 0 <= i < |t.policies| && Serves(server, t.policies[i], template) && MatchesAt(server, hash, t, template, i) {
      assert ManagedAt(server, hash, t, template, i);
    }
    forall i | 0 <= i < |t.policies|
      ensures BroaderAt(server, hash, t, template, i) <==>
                Serves(server, t.policies[i], template) && t.policies[i].permissive
                && !MatchesAt(server, hash, t, template, i)
    {
    }
  }

  lemma PickedOne(columns: seq<ColumnInfo>, keep: ColumnInfo -> bool)
    ensures Filtered(columns, keep) != [] <==> exists c <- columns :: keep(c)
  {
    FilteredAt(columns, keep);
    var at := Positions(columns, keep);
    if Filtered(columns, keep) != [] {
      assert columns[at[0]] in columns;
    }
    if c :| c in columns && keep(c) {
      var i :| 0 <= i < |columns| && columns[i] == c;
      assert i in at;
    }
  }

  /** The requirements on the column lists ask for one column that may be changed. */
  lemma ListsMean(columns: seq<ColumnInfo>)
    ensures Contract(columns).readable != [] && Contract(columns).insertable != [] && Contract(columns).updatable != []
            <==> exists c <- columns :: TypeSupported(c.dataType) && c.generated == "" && c.identity == "" && c.name != "id"
  {
    PickedOne(columns, Readable);
    PickedOne(columns, Insertable);
    PickedOne(columns, Updatable);
    forall c: ColumnInfo ensures Readable(c) <==> TypeSupported(c.dataType) {
      SupportedMeans(c);
    }
    if c :| c in columns && Updatable(c) {
      assert Insertable(c) && Readable(c);
    }
  }

  lemma KeyTypeMeans(dataType: string)
    ensures NormalType(dataType) == "uuid" <==> Trimmed(Commands.Lower(dataType)) == "uuid"
  {
  }

  /** The requirements that are not on policies, over the table's rows. */
  ghost predicate ShapeQualifies(t: Table) {
    && t.rowSecurity && t.forced
    && |t.primaryKey| == 1 && t.primaryKey[0].column == "id"
    && Trimmed(Commands.Lower(t.primaryKey[0].dataType)) == "uuid"
    && (exists c <- t.columns :: TypeSupported(c.dataType) && c.generated == "" && c.identity == "" && c.name != "id")
  }

  predicate OnPolicies(refusal: Refusal) {
    refusal.NoManagedPolicy? || refusal.BroaderPolicy?
  }

  lemma ShapePasses(server: Server, hash: string -> string, t: Table, refusal: Refusal)
    requires ShapeQualifies(t) && !OnPolicies(refusal)
    ensures !Violates(server, hash, Some(t), refusal)
  {
    ListsMean(t.columns);
    KeyTypeMeans(t.primaryKey[0].dataType);
  }

  lemma ShapeBroken(server: Server, hash: string -> string, t: Table) returns (refusal: Refusal)
    requires !ShapeQualifies(t)
    ensures !OnPolicies(refusal) && Violates(server, hash, Some(t), refusal)
  {
    ListsMean(t.columns);
    if t.primaryKey != [] {
      KeyTypeMeans(t.primaryKey[0].dataType);
    }
    refusal :=
      if !t.rowSecurity then RowSecurityOff
      else if !t.forced then NotForced
      else if |t.primaryKey| != 1 then NoSingleColumnKey
      else if t.primaryKey[0].column != "id" then KeyNotNamedId
      else if NormalType(t.primaryKey[0].dataType) != "uuid" then KeyNotUuid
      else if Contract(t.columns).readable == [] then NoReadableColumns
      else if Contract(t.columns).insertable == [] then NoInsertableColumns
      else NoUpdatableColumns;
  }

  lemma PolicyPasses(server: Server, hash: string -> string, t: Table, template: Template)
    requires PoliciesRight(server, hash, t) && NamesDistinct(hash, t.name, ColumnNames(t.columns))
    ensures PolicyRefusal(server, hash, t, template).None?
  {
    assert OwnOnly(server, hash, t, CommandOf(template), template) by {
      match template case Read => case Insert => case Update => case Delete =>
    }
    PoliciesMean(server, hash, t, template);
  }

  lemma AcceptedPolicy(server: Server, hash: string -> string, t: Table, template: Template)
    requires Accepted(server, hash, Some(t))
    ensures PolicyRefusal(server, hash, t, template).None?
  {
    var refusal := PolicyRefusal(server, hash, t, template);
    if refusal.Some? {
      RefusedViolates(server, hash, t, template);
      assert false;
    }
  }

  lemma RefusedViolates(server: Server, hash: string -> string, t: Table, template: Template)
    requires PolicyRefusal(server, hash, t, template).Some?
    ensures Violates(server, hash, Some(t), PolicyRefusal(server, hash, t, template).value)
  {
  }

  lemma AcceptedServes(server: Server, hash: string -> string, t: Table, template: Template)
    requires Accepted(server, hash, Some(t))
    ensures OwnOnly(server, hash, t, CommandOf(template), template)
  {
    AcceptedPolicy(server, hash, t, template);
    PoliciesMean(server, hash, t, template);
  }

  lemma AcceptedQualifies(server: Server, hash: string -> string, t: Table)
    requires Accepted(server, hash, Some(t))
    ensures Qualifies(server, hash, t)
  {
    AcceptedServes(server, hash, t, Ddl.Read);
    AcceptedServes(server, hash, t, Ddl.Insert);
    AcceptedServes(server, hash, t, Ddl.Update);
    AcceptedServes(server, hash, t, Ddl.Delete);
    if !ShapeQualifies(t) {
      var refusal := ShapeBroken(server, hash, t);
      assert false;
    }
  }

  lemma QualifiedPasses(server: Server, hash: string -> string, t: Table, refusal: Refusal)
    requires Qualifies(server, hash, t) && NamesDistinct(hash, t.name, ColumnNames(t.columns))
    ensures !Violates(server, hash, Some(t), refusal)
  {
    if OnPolicies(refusal) {
      PolicyPasses(server, hash, t, refusal.template);
    } else {
      ShapePasses(server, hash, t, refusal);
    }
  }

  /**
   What an accepted table is, over its rows and policies: an acceptance says the table
   qualifies, and a table that qualifies is accepted unless two of the module's names for it collide.
  */
  lemma AcceptanceMeans(server: Server, hash: string -> string, found: Option<Table>)
    ensures Accepted(server, hash, found) ==> found.Some? && Qualifies(server, hash, found.value)
    ensures (&& found.Some? && Qualifies(server, hash, found.value)
             && NamesDistinct(hash, found.value.name, ColumnNames(found.value.columns))) ==> Accepted(server, hash, found)
  {
    if Accepted(server, hash, found) {
      assert !Violates(server, hash, found, NoTable);
      AcceptedQualifies(server, hash, found.value);
    }
    if found.Some? && Qualifies(server, hash, found.value)
       && NamesDistinct(hash, found.value.name, ColumnNames(found.value.columns))
    {
      forall refusal: Refusal ensures !Violates(server, hash, found, refusal) {
        QualifiedPasses(server, hash, found.value, refusal);
      }
    }
  }

  /**
   Acceptance implies row ownership: every row that a statement of the runtime role may read,
   add, change or delete for a user has that user in some column, before and after, and
   without an identity no row qualifies. Nothing is assumed about the table's other policies.
  */
  lemma AcceptedRowsAreOwned(server: Server, hash: string -> string, t: Table, user: Option<nat>, a: Access, row: Row)
    requires Faithful(server) && Accepted(server, hash, Some(t))
    requires Permitted(server, t, user, a) && row in Touched(a)
    ensures OwnedBy(t, user, row)
  {
    AcceptedPolicies(server, hash, t);
    match a
    case Selects(r) => CombinedOwns(server, hash, t, Ddl.Read, UsingClause, user, r);
    case Inserts(r) => CombinedOwns(server, hash, t, Ddl.Insert, NewRowClause, user, r);
    case Updates(from, to) =>
      CombinedOwns(server, hash, t, Ddl.Update, UsingClause, user, from);
      CombinedOwns(server, hash, t, Ddl.Update, NewRowClause, user, to);
    case Deletes(r) => CombinedOwns(server, hash, t, Ddl.Delete, UsingClause, user, r);
  }

  // ---------- the module's own policies ----------

  /** The policy the module creates from a template. */
  function ManagedPolicy(hash: string -> string, table: string, column: string, template: Template, role: string): Policy {
    Policy(Commands.PolicyName(hash, table, column, template), CommandOf(template), true, Only({role}),
           if RendersUsing(template) then Some(Owns(column)) else None,
           if RendersCheck(template) then Some(Owns(column)) else None)
  }

  function ManagedPolicies(hash: string -> string, table: string, column: string, role: string): seq<Policy> {
    seq(4, i requires 0 <= i < 4 => ManagedPolicy(hash, table, column, EXERCISED[i], role))
  }

  /** No two identities over the table's columns share a name. */
  ghost predicate NamesDistinct(hash: string -> string, table: string, columns: seq<string>) {
    forall c, t, c', t' | c in columns && c' in columns ::
      Commands.PolicyName(hash, table, c, t) == Commands.PolicyName(hash, table, c', t') ==> c == c' && t == t'
  }

  lemma ManagedMatches(text: Expr -> string, hash: string -> string, table: string, columns: seq<string>,
                       column: string, template: Template, template': Template, role: string)
    requires NamesDistinct(hash, table, columns) && column in columns
    ensures Matches(text, hash, table, columns, ManagedPolicy(hash, table, column, template, role), template')
            <==> template == template'
  {
    var name := Commands.PolicyName(hash, table, column, template);
    var identity := ModuleIdentity(hash, name, table, columns);
    ModuleIdentityFinds(hash, name, table, columns);
    assert identity == Some(Identity(column, template));
  }

  /** The four policies the module creates on one column pass the policy requirements. */
  lemma ManagedPoliciesPass(server: Server, hash: string -> string, t: Table, column: string, role: string, template: Template)
    requires NamesDistinct(hash, t.name, ColumnNames(t.columns)) && column in ColumnNames(t.columns)
    requires role in server.memberOf
    requires t.policies == ManagedPolicies(hash, t.name, column, role)
    ensures HasManaged(server, hash, t, template) && !HasBroader(server, hash, t, template)
  {
    ManagedAtPosition(server, hash, t, column, role, template);
    forall i: nat | i < |t.policies| ensures !BroaderAt(server, hash, t, template, i) {
      ManagedNotBroader(server, hash, t, column, role, template, i);
    }
  }

  lemma ManagedAtPosition(server: Server, hash: string -> string, t: Table, column: string, role: string, template: Template)
    requires NamesDistinct(hash, t.name, ColumnNames(t.columns)) && column in ColumnNames(t.columns)
    requires role in server.memberOf
    requires t.policies == ManagedPolicies(hash, t.name, column, role)
    ensures ManagedAt(server, hash, t, template, Position(template))
  {
    ManagedMatches(server.text, hash, t.name, ColumnNames(t.columns), column, template, template, role);
  }

  lemma ManagedNotBroader(server: Server, hash: string -> string, t: Table, column: string, role: string,
                          template: Template, i: nat)
    requires NamesDistinct(hash, t.name, ColumnNames(t.columns)) && column in ColumnNames(t.columns)
    requires t.policies == ManagedPolicies(hash, t.name, column, role) && i < |t.policies|
    ensures !BroaderAt(server, hash, t, template, i)
  {
    ManagedMatches(server.text, hash, t.name, ColumnNames(t.columns), column, EXERCISED[i], template, role);
    if EXERCISED[i] != template {
      CommandsDiffer(EXERCISED[i], template);
    }
  }

  lemma CommandsDiffer(t: Template, t': Template)
    requires t != t'
    ensures CommandOf(t) != CommandOf(t') && !CommandOf(t).ForAll?
  {
  }

  /** They also let a user reach every row of theirs: the check does not accept a locked table. */
  lemma ManagedPoliciesServe(server: Server, hash: string -> string, table: string, column: string, role: string, user: nat, a: Access)
    requires role in server.privilegesOf
    ensures PoliciesPermit(server, ManagedPolicies(hash, table, column, role), Some(user), a)
            <==> forall row <- Touched(a) :: column in row && row[column] == user
  {
    match a
    case Selects(row) => CombineManaged(server, hash, table, column, role, UsingClause, Ddl.Read, Some(user), row);
    case Inserts(row) => CombineManaged(server, hash, table, column, role, NewRowClause, Ddl.Insert, Some(user), row);
    case Updates(from, to) =>
      CombineManaged(server, hash, table, column, role, UsingClause, Ddl.Update, Some(user), from);
      CombineManaged(server, hash, table, column, role, NewRowClause, Ddl.Update, Some(user), to);
    case Deletes(row) => CombineManaged(server, hash, table, column, role, UsingClause, Ddl.Delete, Some(user), row);
  }

  lemma CombineManaged(server: Server, hash: string -> string, table: string, column: string, role: string,
                       clause: Policy -> Option<Expr>, template: Template, user: Option<nat>, row: Row)
    requires role in server.privilegesOf
    ensures Combine(server, ManagedPolicies(hash, table, column, role), clause, CommandOf(template), user, row)
            <==> Holds(server, clause(ManagedPolicy(hash, table, column, template, role)), user, row)
  {
    var policies := ManagedPolicies(hash, table, column, role);
    var own := ManagedPolicy(hash, table, column, template, role);
    var k := Position(template);
    assert policies[k] == own && InForce(server, own, CommandOf(template));
    assert forall i | 0 <= i < 4 :: InForce(server, policies[i], CommandOf(template)) ==> i == k;
  }
}
