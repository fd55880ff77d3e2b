/**
 The one-time import of the configured exposure mapping, raced by any number of starting
 processes.
*/
module ExposureImport {
  import opened Common
  import Commands

  datatype Entry = Entry(alias: string, schema: string, table: string)

  // ---------- validation ----------

  predicate WordChar(c: char) {
    'a' <= c <= 'z' || 'A' <= c <= 'Z' || '0' <= c <= '9' || c == '_'
  }

  predicate ValidIdentifier(s: string) {
    && s != "" && !('0' <= s[0] <= '9')
    && forall i | 0 <= i < |s| :: WordChar(s[i])
  }

  const FORBIDDEN := {"microjbase", "pg_catalog", "information_schema"}

  predicate ValidMapping(e: Entry) {
    Commands.RegistryAlias(e.alias) && ValidIdentifier(e.schema) && ValidIdentifier(e.table) && Commands.Lower(e.schema) !in FORBIDDEN
  }

  /** No alias and no target twice. */
  ghost predicate NoDuplicates(es: seq<Entry>) {
    forall i, j | 0 <= i < j < |es| ::
      es[i].alias != es[j].alias && (es[i].schema != es[j].schema || es[i].table != es[j].table)
  }

  ghost predicate ValidPayload(es: seq<Entry>) {
    (forall i | 0 <= i < |es| :: ValidMapping(es[i])) && NoDuplicates(es)
  }

  function TargetText(e: Entry): string {
    e.schema + "." + e.table
  }

  lemma TargetInjective(d: Entry, e: Entry)
    requires ValidMapping(d) && ValidMapping(e)
    ensures TargetText(d) == TargetText(e) <==> d.schema == e.schema && d.table == e.table
  {
    assert '.' !in d.schema && '.' !in e.schema;
    if TargetText(d) == TargetText(e) {
      JoinInjective(d.schema, d.table, e.schema, e.table, '.');
    }
  }

  /** What the loop has seen of some mappings. */
  ghost predicate Seen(mappings: seq<Entry>, aliases: set<string>, targets: set<string>) {
    && aliases == (set m | m in mappings :: m.alias)
    && targets == set m | m in mappings :: TargetText(m)
  }

  /** One mapping more is right exactly when it is valid and neither its alias nor its target was seen. */
  lemma PayloadStep(mappings: seq<Entry>, m: Entry, aliases: set<string>, targets: set<string>)
    requires ValidPayload(mappings) && Seen(mappings, aliases, targets)
    ensures Seen(mappings + [m], aliases + {m.alias}, targets + {TargetText(m)})
    ensures ValidPayload(mappings + [m]) <==> ValidMapping(m) && m.alias !in aliases && TargetText(m) !in targets
  {
    var longer := mappings + [m];
    assert longer[|mappings|] == m && forall i | 0 <= i < |mappings| :: longer[i] == mappings[i] && mappings[i] in mappings;
    if ValidMapping(m) {
      forall i | 0 <= i < |mappings|
        ensures TargetText(mappings[i]) == TargetText(m) <==> mappings[i].schema == m.schema && mappings[i].table == m.table
      {
        TargetInjective(mappings[i], m);
      }
    }
  }

  lemma PayloadPrefix(mappings: seq<Entry>, i: nat)
    requires i <= |mappings| && ValidPayload(mappings)
    ensures ValidPayload(mappings[..i])
  {
  }

  /** Accepts exactly the valid mappings without duplicate aliases or targets. */
  method BuildImportPayload(mappings: seq<Entry>) returns (payload: Option<seq<Entry>>)
    ensures payload == if ValidPayload(mappings) then Some(mappings) else None
  {
    var seenAliases: set<string>, seenTargets: set<string> := {}, {};
    for i := 0 to |mappings|
      invariant ValidPayload(mappings[..i]) && Seen(mappings[..i], seenAliases, seenTargets)
    {
      var m := mappings[i];
      PayloadStep(mappings[..i], m, seenAliases, seenTargets);
      NextPrefix(mappings, i);
      if !ValidMapping(m) || m.alias in seenAliases || TargetText(m) in seenTargets {
        if ValidPayload(mappings) {
          PayloadPrefix(mappings, i + 1);
          assert false;
        }
        return None;
      }
      seenAliases := seenAliases + {m.alias};
      seenTargets := seenTargets + {TargetText(m)};
    }
    assert mappings[..|mappings|] == mappings;
    return Some(mappings);
  }

  // ---------- comparing sets ----------

  function SetKey(e: Entry): string {
    e.alias + "\U{0}" + e.schema + "\U{0}" + e.table
  }

  predicate NoNul(e: Entry) {
    '\U{0}' !in e.alias && '\U{0}' !in e.schema && '\U{0}' !in e.table
  }

  lemma SetKeyInjective(d: Entry, e: Entry)
    requires NoNul(d) && NoNul(e)
    ensures SetKey(d) == SetKey(e) <==> d == e
  {
    if SetKey(d) == SetKey(e) {
      assert SetKey(d) == d.alias + ['\U{0}'] + (d.schema + ['\U{0}'] + d.table);
      assert SetKey(e) == e.alias + ['\U{0}'] + (e.schema + ['\U{0}'] + e.table);
      JoinInjective(d.alias, d.schema + ['\U{0}'] + d.table, e.alias, e.schema + ['\U{0}'] + e.table, '\U{0}');
      JoinInjective(d.schema, d.table, e.schema, e.table, '\U{0}');
    }
  }

  function KeySet(es: seq<Entry>): set<string> {
    set i | 0 <= i < |es| :: SetKey(es[i])
  }

  function Members(es: seq<Entry>): set<Entry> {
    set i | 0 <= i < |es| :: es[i]
  }

  predicate ExposedSetsEqual(exposed: seq<Entry>, payload: seq<Entry>) {
    && |exposed| == |payload|
    && |KeySet(exposed)| == |exposed|
    && forall i | 0 <= i < |payload| :: SetKey(payload[i]) in KeySet(exposed)
  }

  ghost predicate Distinct(es: seq<Entry>) {
    forall i, j | 0 <= i < j < |es| :: es[i] != es[j]
  }

  lemma {:induction false} MemberCount(es: seq<Entry>)
    requires Distinct(es)
    ensures |Members(es)| == |es|
  {
    if es != [] {
      var n := |es| - 1;
      MemberCount(es[..n]);
      assert Members(es) == Members(es[..n]) + {es[n]};
      assert es[n] !in Members(es[..n]);
    }
  }

  lemma {:induction false} KeyCount(es: seq<Entry>)
    requires forall i | 0 <= i < |es| :: NoNul(es[i])
    requires Distinct(es)
    ensures |KeySet(es)| == |es|
  {
    if es != [] {
      var n := |es| - 1;
      KeyCount(es[..n]);
      assert KeySet(es) == KeySet(es[..n]) + {SetKey(es[n])};
      forall i | 0 <= i < n ensures SetKey(es[i]) != SetKey(es[n]) {
        SetKeyInjective(es[i], es[n]);
      }
      assert SetKey(es[n]) !in KeySet(es[..n]);
    }
  }

  /** The counting comparison decides set equality, because the payload has no duplicates. */
  lemma ComparisonIsSetEquality(exposed: seq<Entry>, payload: seq<Entry>)
    requires forall i | 0 <= i < |exposed| :: NoNul(exposed[i])
    requires forall i | 0 <= i < |payload| :: NoNul(payload[i])
    requires Distinct(exposed) && Distinct(payload)
    ensures ExposedSetsEqual(exposed, payload) <==> Members(exposed) == Members(payload)
  {
    MemberCount(exposed);
    MemberCount(payload);
    KeyCount(exposed);
    if ExposedSetsEqual(exposed, payload) {
      forall e <- Members(payload) ensures e in Members(exposed) {
        var i :| 0 <= i < |payload| && payload[i] == e;
        var j :| 0 <= j < |exposed| && SetKey(exposed[j]) == SetKey(payload[i]);
        SetKeyInjective(exposed[j], payload[i]);
      }
      assert |Members(exposed) - Members(payload)| == |Members(exposed)| - |Members(payload)|;
      assert Members(exposed) == Members(payload);
    }
    if Members(exposed) == Members(payload) {
      forall i | 0 <= i < |payload| ensures SetKey(payload[i]) in KeySet(exposed) {
        assert payload[i] in Members(exposed);
      }
    }
  }

  lemma ValidIsPlain(es: seq<Entry>)
    requires ValidPayload(es)
    ensures Distinct(es) && forall i | 0 <= i < |es| :: NoNul(es[i])
  {
    forall i | 0 <= i < |es| ensures NoNul(es[i]) {
      assert ValidMapping(es[i]);
    }
  }

  // ---------- the race ----------

  datatype Database = Database(initialized: bool, exposed: seq<Entry>)

  predicate LowerIdentifier(s: string) {
    ValidIdentifier(s) && forall i | 0 <= i < |s| :: !('A' <= s[i] <= 'Z')
  }

  predicate ImportableEntry(e: Entry) {
    && Commands.RegistryAlias(e.alias) && LowerIdentifier(e.schema) && LowerIdentifier(e.table)
    && e.schema !in FORBIDDEN && !("pg_" <= e.schema)
  }

  /** What the audited SQL function demands of a payload, on its own. */
  ghost predicate Importable(es: seq<Entry>) {
    (forall i | 0 <= i < |es| :: ImportableEntry(es[i])) && NoDuplicates(es)
  }

  /** The audited function, one transaction under its lock: it raises, or imports exactly once. */
  ghost function ImportRegistry(db: Database, payload: seq<Entry>): Option<Database> {
    if Importable(payload) && !db.initialized then Some(Database(true, payload)) else None
  }

  /** A state read is two queries; `Reading*` is between them. */
  datatype Phase =
    | Starting
    | ReadingBefore(initialized: bool)
    | Ready
    | Imported(failed: bool)
    | ReadingAfter(failed: bool, initialized: bool)
    | Returned(listing: seq<Entry>)
    | Conflict
    | Refused

  datatype Process = Process(mapping: seq<Entry>, phase: Phase)

  datatype System = System(db: Database, processes: seq<Process>)

  /** How a query ends: its answer, or a lost connection after or before it took effect. */
  datatype Answer = Received | LostAfter | LostBefore

  datatype Action = Action(process: nat, answer: Answer, listing: seq<Entry>)

  /** `ORDER BY alias` in whatever collation lists every exposed row once. */
  ghost predicate Enabled(s: System, a: Action) {
    a.process < |s.processes| && multiset(a.listing) == multiset(s.db.exposed)
  }

  function Recovered(initialized: bool, listing: seq<Entry>, payload: seq<Entry>): Phase {
    if !initialized then Refused
    else if ExposedSetsEqual(listing, payload) then Returned(listing)
    else Conflict
  }

  ghost function NextPhase(db: Database, p: Process, a: Action): Phase {
    match p.phase
    case Starting => if a.answer.Received? then ReadingBefore(db.initialized) else Refused
    case ReadingBefore(initialized) =>
      if !a.answer.Received? then Refused
      else if initialized then Conflict
      else if ValidPayload(p.mapping) then Ready else Refused
    case Ready => Imported(!(a.answer.Received? && ImportRegistry(db, p.mapping).Some?))
    case Imported(failed) => if a.answer.Received? then ReadingAfter(failed, db.initialized) else Refused
    case ReadingAfter(failed, initialized) =>
      if !a.answer.Received? then Refused
      else if failed then Recovered(initialized, a.listing, p.mapping)
      else Returned(a.listing)
    case _ => p.phase
  }

  ghost function NextDatabase(db: Database, p: Process, a: Action): Database {
    if p.phase.Ready? && !a.answer.LostBefore? && ImportRegistry(db, p.mapping).Some?
    then ImportRegistry(db, p.mapping).value
    else db
  }

  ghost function Next(s: System, a: Action): System
    requires Enabled(s, a)
  {
    var p := s.processes[a.process];
    System(NextDatabase(s.db, p, a), s.processes[a.process := p.(phase := NextPhase(s.db, p, a))])
  }

  ghost predicate PlainRows(es: seq<Entry>) {
    Distinct(es) && forall i | 0 <= i < |es| :: NoNul(es[i])
  }

  ghost predicate ProcessInv(db: Database, p: Process) {
    && (p.phase.Ready? || p.phase.Imported? || p.phase.ReadingAfter? || p.phase.Returned? ==> ValidPayload(p.mapping))
    && (p.phase.Imported? && !p.phase.failed ==> db == Database(true, p.mapping))
    && (p.phase.ReadingAfter? && p.phase.initialized ==> db.initialized)
    && (p.phase.ReadingAfter? && !p.phase.failed ==> db == Database(true, p.mapping))
    && (p.phase.Returned? ==>
          db.initialized && Members(p.phase.listing) == Members(db.exposed) == Members(p.mapping))
  }

  ghost predicate Inv(s: System) {
    && PlainRows(s.db.exposed)
    && (!s.db.initialized ==> s.db.exposed == [])
    && forall i | 0 <= i < |s.processes| :: ProcessInv(s.db, s.processes[i])
  }

  ghost predicate Start(s: System) {
    && PlainRows(s.db.exposed)
    && (!s.db.initialized ==> s.db.exposed == [])
    && forall i | 0 <= i < |s.processes| :: s.processes[i].phase.Starting?
  }

  /** Reading the rows in any order reads the same set, without repeats. */
  lemma ListingReads(listing: seq<Entry>, exposed: seq<Entry>)
    requires PlainRows(exposed) && multiset(listing) == multiset(exposed)
    ensures PlainRows(listing) && Members(listing) == Members(exposed)
  {
    forall e ensures e in Members(listing) <==> e in Members(exposed) {
      assert e in listing <==> e in multiset(listing);
      assert e in exposed <==> e in multiset(exposed);
    }
    forall i | 0 <= i < |listing| ensures NoNul(listing[i]) {
      assert listing[i] in Members(listing);
    }
    forall i, j | 0 <= i < j < |listing| ensures listing[i] != listing[j] {
      if listing[i] == listing[j] {
        TwicePresent(listing, i, j);
        OncePresent(exposed, listing[i]);
        assert false;
      }
    }
  }

  /** Once initialised, the registry never changes again. */
  lemma InitialisedIsFinal(db: Database, p: Process, a: Action)
    ensures db.initialized ==> NextDatabase(db, p, a) == db
    ensures NextDatabase(db, p, a) != db ==> NextDatabase(db, p, a) == Database(true, p.mapping) && p.phase.Ready?
  {
  }

  lemma StepperKeeps(db: Database, p: Process, a: Action)
    requires PlainRows(db.exposed) && ProcessInv(db, p)
    requires multiset(a.listing) == multiset(db.exposed)
    ensures ProcessInv(NextDatabase(db, p, a), p.(phase := NextPhase(db, p, a)))
  {
    ListingReads(a.listing, db.exposed);
    if p.phase.ReadingAfter? {
      ValidIsPlain(p.mapping);
      ComparisonIsSetEquality(a.listing, p.mapping);
    }
  }

  lemma OthersKeep(db: Database, db': Database, p: Process)
    requires ProcessInv(db, p)
    requires db' == db || !db.initialized
    ensures ProcessInv(db', p)
  {
  }

  lemma StepKeepsInv(s: System, a: Action)
    requires Inv(s) && Enabled(s, a)
    ensures Inv(Next(s, a))
  {
    var p := s.processes[a.process];
    var s' := Next(s, a);
    InitialisedIsFinal(s.db, p, a);
    if p.phase.Ready? {
      ValidIsPlain(p.mapping);
    }
    forall i | 0 <= i < |s'.processes| ensures ProcessInv(s'.db, s'.processes[i]) {
      if i == a.process {
        StepperKeeps(s.db, p, a);
      } else {
        OthersKeep(s.db, s'.db, s.processes[i]);
      }
    }
  }

  // ---------- runs ----------

  ghost predicate IsRun(s: System, actions: seq<Action>)
    decreases |actions|
  {
    actions == [] || (Enabled(s, actions[0]) && IsRun(Next(s, actions[0]), actions[1..]))
  }

  ghost function After(s: System, actions: seq<Action>): (s': System)
    requires IsRun(s, actions)
    ensures |s'.processes| == |s.processes|
    decreases |actions|
  {
    if actions == [] then s else After(Next(s, actions[0]), actions[1..])
  }

  /** How many imports took effect. */
  ghost function Imports(s: System, actions: seq<Action>): nat
    requires IsRun(s, actions)
    decreases |actions|
  {
    if actions == [] then 0
    else
      (if Next(s, actions[0]).db.initialized && !s.db.initialized then 1 else 0)
      + Imports(Next(s, actions[0]), actions[1..])
  }

  lemma {:induction false} RunKeepsInv(s: System, actions: seq<Action>)
    requires Inv(s) && IsRun(s, actions)
    ensures Inv(After(s, actions))
    ensures forall i | 0 <= i < |s.processes| :: After(s, actions).processes[i].mapping == s.processes[i].mapping
    decreases |actions|
  {
    if actions != [] {
      StepKeepsInv(s, actions[0]);
      RunKeepsInv(Next(s, actions[0]), actions[1..]);
    }
  }

  /**
   At most one import ever takes effect, and the registry is then the one it started with or
   some process's whole mapping.
   */
  lemma {:induction false} AtMostOneImport(s: System, actions: seq<Action>)
    requires Inv(s) && IsRun(s, actions)
    ensures Imports(s, actions) == if After(s, actions).db.initialized && !s.db.initialized then 1 else 0
    ensures s.db.initialized ==> After(s, actions).db == s.db
    ensures After(s, actions).db == s.db
            || exists i | 0 <= i < |s.processes| :: After(s, actions).db == Database(true, s.processes[i].mapping)
    decreases |actions|
  {
    if actions != [] {
      var p := s.processes[actions[0].process];
      InitialisedIsFinal(s.db, p, actions[0]);
      StepKeepsInv(s, actions[0]);
      AtMostOneImport(Next(s, actions[0]), actions[1..]);
    }
  }

  /**
   Racing first start-ups agree: whatever the interleaving and the lost answers, every process
   that returns returns the registry's set, which is its own mapping; so all of them return the
   same set.
   */
  lemma StartUpsAgree(s: System, actions: seq<Action>, i: nat, j: nat)
    requires Start(s) && IsRun(s, actions)
    requires i < |s.processes| && j < |s.processes|
    requires After(s, actions).processes[i].phase.Returned? && After(s, actions).processes[j].phase.Returned?
    ensures Members(After(s, actions).processes[i].phase.listing) == Members(s.processes[i].mapping)
    ensures Members(After(s, actions).processes[j].phase.listing) == Members(s.processes[i].mapping)
    ensures Members(After(s, actions).db.exposed) == Members(s.processes[i].mapping)
  {
    RunKeepsInv(s, actions);
  }

  /**
   A process that lost the race and can still read the registry returns exactly when the winner
   chose its set; with another set it reports a conflict, and fails if nobody won.
   */
  lemma LoserAgrees(s: System, a: Action)
    requires Inv(s) && Enabled(s, a) && a.answer.Received?
    requires s.processes[a.process].phase.ReadingAfter? && s.processes[a.process].phase.failed
    ensures var p := s.processes[a.process];
            var p' := Next(s, a).processes[a.process].phase;
            && (p'.Returned? <==> p.phase.initialized && Members(s.db.exposed) == Members(p.mapping))
            && (p'.Conflict? <==> p.phase.initialized && Members(s.db.exposed) != Members(p.mapping))
            && (p'.Refused? <==> !p.phase.initialized)
  {
    var p := s.processes[a.process];
    assert ProcessInv(s.db, p);
    ListingReads(a.listing, s.db.exposed);
    ValidIsPlain(p.mapping);
    ComparisonIsSetEquality(a.listing, p.mapping);
  }

  // ---------- what is accepted, and a lone start ----------

  predicate LowerLetter(c: char) {
    'a' <= c <= 'z'
  }

  predicate DecimalDigit(c: char) {
    '0' <= c <= '9'
  }

  predicate AsciiLetter(c: char) {
    LowerLetter(c) || 'A' <= c <= 'Z'
  }

  /** A letter or underscore first, then letters, digits and underscores. */
  predicate IdentifierText(s: string) {
    && |s| >= 1 && (AsciiLetter(s[0]) || s[0] == '_')
    && forall i | 1 <= i < |s| :: AsciiLetter(s[i]) || DecimalDigit(s[i]) || s[i] == '_'
  }

  /** The same in lower case, up to 63 characters, a letter first. */
  predicate AliasText(s: string) {
    && 1 <= |s| < 64 && LowerLetter(s[0])
    && forall i | 1 <= i < |s| :: LowerLetter(s[i]) || DecimalDigit(s[i]) || s[i] == '_'
  }

  predicate NoUpper(s: string) {
    forall i | 0 <= i < |s| :: !('A' <= s[i] <= 'Z')
  }

  predicate SameIgnoringCase(s: string, lower: string) {
    |s| == |lower| && forall i | 0 <= i < |s| ::
      s[i] == lower[i] || ('A' <= s[i] <= 'Z' && s[i] as int + 32 == lower[i] as int)
  }

  predicate SystemSchema(s: string) {
    SameIgnoringCase(s, "microjbase") || SameIgnoringCase(s, "pg_catalog") || SameIgnoringCase(s, "information_schema")
  }

  lemma LowerIs(s: string, lower: string)
    requires forall i | 0 <= i < |lower| :: 'a' <= lower[i] <= 'z' || lower[i] == '_'
    ensures SameIgnoringCase(s, lower) <==> Commands.Lower(s) == lower
  {
    if |s| == |lower| {
      forall i | 0 <= i < |s|
        ensures (s[i] == lower[i] || ('A' <= s[i] <= 'Z' && s[i] as int + 32 == lower[i] as int))
                <==> Commands.Lower(s)[i] == lower[i]
      {
      }
    }
  }

  /** The mappings the server accepts at start-up. */
  lemma MappingMeans(e: Entry)
    ensures ValidMapping(e)
            <==> AliasText(e.alias) && IdentifierText(e.schema) && IdentifierText(e.table) && !SystemSchema(e.schema)
  {
    LowerIs(e.schema, "microjbase");
    LowerIs(e.schema, "pg_catalog");
    LowerIs(e.schema, "information_schema");
  }

  /** The mappings the SQL function accepts, whoever calls it: names in lower case only. */
  lemma ImportableMeans(e: Entry)
    ensures ImportableEntry(e)
            <==> && AliasText(e.alias) && IdentifierText(e.schema) && NoUpper(e.schema)
                 && IdentifierText(e.table) && NoUpper(e.table)
                 && e.schema != "microjbase" && e.schema != "information_schema" && !("pg_" <= e.schema)
  {
  }


  /** One query of process `p`, answered. */
  function Answered(p: nat, listing: seq<Entry>): Action {
    Action(p, Received, listing)
  }

  /**
   A process that starts on an uninitialised registry, with a mapping both sides accept, and is
   neither overtaken nor cut off imports it in five queries and returns it.
  */
  lemma LoneStartImports(s: System, p: nat)
    requires p < |s.processes| && s.processes[p].phase.Starting? && !s.db.initialized
    requires ValidPayload(s.processes[p].mapping) && Importable(s.processes[p].mapping)
    ensures var was, mapping := s.db.exposed, s.processes[p].mapping;
            var before := [Answered(p, was), Answered(p, was), Answered(p, was)];
            var after := [Answered(p, mapping), Answered(p, mapping)];
            && IsRun(s, before + after)
            && After(s, before + after).db == Database(true, mapping)
            && After(s, before + after).processes[p].phase == Returned(mapping)
  {
    var was, mapping := s.db.exposed, s.processes[p].mapping;
    var early, late := Answered(p, was), Answered(p, mapping);
    var s1 := Next(s, early);
    var s2 := Next(s1, early);
    var s3 := Next(s2, early);
    var s4 := Next(s3, late);
    assert s3.db == Database(true, mapping) && s3.processes[p].phase == Imported(false);
    var s5 := Next(s4, late);
    assert [early, early, early] + [late, late] == [early, early, early, late, late];
    RunOne(s4, late, []);
    RunOne(s3, late, [late]);
    RunOne(s2, early, [late, late]);
    RunOne(s1, early, [early, late, late]);
    RunOne(s, early, [early, early, late, late]);
  }

  lemma RunOne(s: System, a: Action, rest: seq<Action>)
    requires Enabled(s, a) && IsRun(Next(s, a), rest)
    ensures IsRun(s, [a] + rest) && After(s, [a] + rest) == After(Next(s, a), rest)
  {
    assert ([a] + rest)[1..] == rest;
  }

  /** A process that finds the registry initialised, or whose mapping is refused, imports nothing. */
  lemma EarlyRefusals(s: System, a: Action)
    requires Enabled(s, a) && a.answer.Received? && s.processes[a.process].phase.ReadingBefore?
    ensures var p := s.processes[a.process];
            var p' := Next(s, a).processes[a.process].phase;
            && Next(s, a).db == s.db
            && (p'.Conflict? <==> p.phase.initialized)
            && (p'.Ready? <==> !p.phase.initialized && ValidPayload(p.mapping))
            && (p'.Refused? <==> !p.phase.initialized && !ValidPayload(p.mapping))
  {
  }
}
