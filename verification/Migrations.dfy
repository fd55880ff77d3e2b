/** The migration runner: listing a directory, and one transaction per run. */
module Migrations {
  import opened Common
  import opened Sorting

  // ---------- file names ----------

  predicate Digit(c: char) {
    '0' <= c <= '9'
  }

  predicate LineEnd(c: char) {
    c == '\n' || c == '\r' || c == '\U{2028}' || c == '\U{2029}'
  }

  predicate IsSql(name: string) {
    |name| >= 4 && name[|name| - 4..] == ".sql"
  }

  /** Four digits, an underscore, a description on one line, and the suffix. */
  predicate WellNamed(name: string) {
    && |name| >= 10 && IsSql(name)
    && Digit(name[0]) && Digit(name[1]) && Digit(name[2]) && Digit(name[3]) && name[4] == '_'
    && forall i | 5 <= i < |name| - 4 :: !LineEnd(name[i])
  }

  function DigitOf(c: char): nat
    requires Digit(c)
  {
    c as int - '0' as int
  }

  function Version(name: MigrationName): nat {
    1000 * DigitOf(name[0]) + 100 * DigitOf(name[1]) + 10 * DigitOf(name[2]) + DigitOf(name[3])
  }

  /** The parts of a name: four decimal digits and a description on one line. */
  ghost predicate Parts(name: string, digits: string, description: string) {
    && name == digits + "_" + description + ".sql"
    && |digits| == 4 && (forall c <- digits :: '0' <= c <= '9')
    && description != "" && (forall c <- description :: c != '\n' && c != '\r' && c != '\U{2028}' && c != '\U{2029}')
  }

  /** Names are taken apart in one way, if at all. */
  lemma NameParts(name: string)
    ensures WellNamed(name) <==> exists digits, description :: Parts(name, digits, description)
    ensures WellNamed(name) ==> |name| >= 10 && Parts(name, name[..4], name[5..|name| - 4])
  {
    if WellNamed(name) {
      var digits, description := name[..4], name[5..|name| - 4];
      assert name == digits + "_" + description + ".sql";
      forall c | c in description ensures !LineEnd(c) {
        var i :| 0 <= i < |description| && description[i] == c;
        assert name[i + 5] == c;
      }
      assert forall c <- digits :: Digit(c);
      assert Parts(name, digits, description);
    }
    if digits, description :| Parts(name, digits, description) {
      assert name[..4] == digits && name[5..|name| - 4] == description;
      assert name[4] == '_' && name[|name| - 4..] == ".sql";
      forall i | 5 <= i < |name| - 4 ensures !LineEnd(name[i]) {
        assert name[i] == description[i - 5] && description[i - 5] in description;
      }
      forall i | 0 <= i < 4 ensures Digit(name[i]) {
        assert name[i] == digits[i] && digits[i] in digits;
      }
    }
  }

  /** The four-digit text of a number below ten thousand. */
  function FourDigits(n: nat): seq<nat>
    requires n < 10000
  {
    [n / 10 / 10 / 10, n / 10 / 10 % 10, n / 10 % 10, n % 10]
  }

  /** A file's version is the number its first four characters write. */
  lemma VersionIsWritten(name: MigrationName, n: nat)
    requires n < 10000
    ensures Version(name) == n <==> forall i | 0 <= i < 4 :: name[i] as int == '0' as int + FourDigits(n)[i]
  {
    var a, b, c, d := DigitOf(name[0]), DigitOf(name[1]), DigitOf(name[2]), DigitOf(name[3]);
    FourDigitsOf(a, b, c, d);
    var v := Version(name);
    if forall i | 0 <= i < 4 :: name[i] as int == '0' as int + FourDigits(n)[i] {
      assert n == 10 * (n / 10) + d && n / 10 == 10 * (n / 10 / 10) + c && n / 10 / 10 == 10 * a + b;
    }
  }

  lemma TenDivides(q: nat, r: nat)
    requires r < 10
    ensures (10 * q + r) / 10 == q && (10 * q + r) % 10 == r
  {
  }

  lemma FourDigitsOf(a: nat, b: nat, c: nat, d: nat)
    requires a < 10 && b < 10 && c < 10 && d < 10
    ensures FourDigits(1000 * a + 100 * b + 10 * c + d) == [a, b, c, d]
  {
    TenDivides(100 * a + 10 * b + c, d);
    TenDivides(10 * a + b, c);
    TenDivides(a, b);
  }

  // ---------- listing ----------

  type MigrationName = name: string | WellNamed(name) witness "0001_a.sql"

  function SqlNames(entries: seq<string>): seq<string> {
    if entries == [] then []
    else
      var n := |entries| - 1;
      SqlNames(entries[..n]) + (if IsSql(entries[n]) then [entries[n]] else [])
  }

  predicate AllWellNamed(names: seq<string>) {
    forall i | 0 <= i < |names| :: WellNamed(names[i])
  }

  function Versions(names: seq<MigrationName>): seq<nat> {
    Mapped(names, Version)
  }

  function OneTo(n: nat): seq<nat> {
    seq(n, i => i + 1)
  }

  /** The SQL files are well named and their versions, in some order, are 1 to n. */
  ghost predicate Acceptable(entries: seq<string>) {
    && AllWellNamed(SqlNames(entries))
    && multiset(Versions(SqlNames(entries))) == multiset(OneTo(|SqlNames(entries)|))
  }

  /** The SQL files, each once, in version order. */
  ghost predicate Lists(names: seq<MigrationName>, entries: seq<string>) {
    Versions(names) == OneTo(|names|) && multiset(names) == multiset(SqlNames(entries))
  }

  predicate VersionAtMost(a: MigrationName, b: MigrationName) {
    Version(a) <= Version(b)
  }

  function SortNames(names: seq<MigrationName>): seq<MigrationName> {
    SortBy(names, VersionAtMost)
  }

  lemma SortNamesSorts(names: seq<MigrationName>)
    ensures NonDecreasing(Versions(SortNames(names))) && multiset(SortNames(names)) == multiset(names)
  {
    SortByAscends(names, VersionAtMost);
  }

  /** The scan of the sorted list finds no gap or duplicate exactly when the versions are 1 to n. */
  lemma ScanDecides(names: seq<MigrationName>)
    ensures Versions(SortNames(names)) == OneTo(|names|) <==> multiset(Versions(names)) == multiset(OneTo(|names|))
  {
    SortNamesSorts(names);
    MappedPermutes(SortNames(names), names, Version);
    if multiset(Versions(names)) == multiset(OneTo(|names|)) {
      NonDecreasingUnique(Versions(SortNames(names)), OneTo(|names|));
    }
  }

  lemma SortedLength(names: seq<MigrationName>)
    ensures |SortNames(names)| == |names|
  {
    SortNamesSorts(names);
    assert |multiset(names)| == |names| && |multiset(SortNames(names))| == |SortNames(names)|;
  }

  method ParseEntries(entries: seq<string>) returns (r: Option<seq<MigrationName>>)
    ensures r.Some? <==> AllWellNamed(SqlNames(entries))
    ensures r.Some? ==> r.value == SqlNames(entries)
  {
    var parsed: seq<MigrationName> := [];
    for i := 0 to |entries|
      invariant parsed == SqlNames(entries[..i])
    {
      assert entries[..i + 1][..i] == entries[..i];
      if IsSql(entries[i]) {
        if !WellNamed(entries[i]) {
          assert SqlNames(entries[..i + 1])[|parsed|] == entries[i];
          NamedPrefix(entries, i + 1);
          return None;
        }
        parsed := parsed + [entries[i]];
      }
    }
    assert entries[..|entries|] == entries;
    return Some(parsed);
  }

  /** Finds the first gap or duplicate. */
  method ScanVersions(sorted: seq<MigrationName>) returns (gapless: bool)
    ensures gapless <==> Versions(sorted) == OneTo(|sorted|)
  {
    for i := 0 to |sorted|
      invariant forall j | 0 <= j < i :: Version(sorted[j]) == j + 1
    {
      if Version(sorted[i]) != i + 1 {
        assert Versions(sorted)[i] != OneTo(|sorted|)[i];
        return false;
      }
    }
    return true;
  }

  /** Accepts a directory exactly when the sorted versions are 1 to n, and lists its files in that order. */
  method ListMigrationFiles(entries: seq<string>) returns (r: Option<seq<MigrationName>>)
    ensures r.Some? <==> Acceptable(entries)
    ensures r.Some? ==> Lists(r.value, entries)
  {
    var parsed := ParseEntries(entries);
    if parsed.None? {
      return None;
    }
    ScanDecides(parsed.value);
    SortedLength(parsed.value);
    SortNamesSorts(parsed.value);
    var gapless := ScanVersions(SortNames(parsed.value));
    if !gapless {
      return None;
    }
    return Some(SortNames(parsed.value));
  }

  lemma {:induction false} NamedPrefix(entries: seq<string>, i: nat)
    requires i <= |entries| && !AllWellNamed(SqlNames(entries[..i]))
    ensures !AllWellNamed(SqlNames(entries))
    decreases |entries| - i
  {
    if i == |entries| {
      assert entries[..i] == entries;
    } else {
      assert entries[..i + 1][..i] == entries[..i];
      assert SqlNames(entries[..i]) == SqlNames(entries[..i + 1])[..|SqlNames(entries[..i])|];
      NamedPrefix(entries, i + 1);
    }
  }

  lemma {:induction false} SqlNamesAre(entries: seq<string>)
    ensures forall name :: name in SqlNames(entries) <==> name in entries && IsSql(name)
  {
    if entries != [] {
      var n := |entries| - 1;
      SqlNamesAre(entries[..n]);
      assert entries == entries[..n] + [entries[n]];
    }
  }

  lemma ListedAre(names: seq<MigrationName>, entries: seq<string>)
    requires Lists(names, entries)
    ensures forall name: MigrationName :: name in names <==> name in entries && IsSql(name)
  {
    SqlNamesAre(entries);
    forall name: MigrationName ensures name in names <==> name in entries && IsSql(name) {
      assert name in names <==> name in multiset(names);
      assert name in multiset(names) <==> name in multiset(SqlNames(entries));
    }
  }

  /** A directory with some of another's files is listed as a prefix of it. */
  lemma SmallerListsPrefix(names: seq<MigrationName>, entries: seq<string>, all: seq<MigrationName>, allEntries: seq<string>)
    requires Lists(names, entries) && Lists(all, allEntries)
    requires forall name <- entries :: name in allEntries
    ensures names <= all
  {
    ListedAre(names, entries);
    ListedAre(all, allEntries);
    forall i: nat | i < |names| ensures i < |all| && all[i] == names[i] {
      PositionIn(names, all, i);
    }
    if names != [] {
      PositionIn(names, all, |names| - 1);
    }
  }

  lemma PositionIn(names: seq<MigrationName>, all: seq<MigrationName>, i: nat)
    requires Versions(names) == OneTo(|names|) && Versions(all) == OneTo(|all|)
    requires i < |names| && names[i] in all
    ensures i < |all| && all[i] == names[i]
  {
    var k :| 0 <= k < |all| && all[k] == names[i];
    assert Versions(all)[k] == k + 1 && Versions(names)[i] == i + 1;
  }
  // ---------- runs ----------

  /** A migration that took effect: its file and the SQL that was executed. */
  datatype Executed = Executed(name: MigrationName, sql: string)

  /** The registry of recorded checksums, and everything executed, in order. */
  datatype Database<Checksum> = Database(recorded: map<MigrationName, Checksum>, executed: seq<Executed>)

  /** What a run meets: the files' contents and which of them the database would execute. */
  datatype Files = Files(content: MigrationName -> string, works: string -> bool)

  ghost predicate Mismatched<Checksum>(db: Database<Checksum>, name: MigrationName, files: Files, checksum: string -> Checksum) {
    name in db.recorded && db.recorded[name] != checksum(files.content(name))
  }

  ghost predicate Failing<Checksum>(db: Database<Checksum>, name: MigrationName, files: Files) {
    name !in db.recorded && !files.works(files.content(name))
  }

  ghost predicate CanRun<Checksum>(db: Database<Checksum>, names: seq<MigrationName>, files: Files, checksum: string -> Checksum) {
    forall name <- names :: !Mismatched(db, name, files, checksum) && !Failing(db, name, files)
  }

  /** The files that are not recorded yet, in order. */
  function Pending<Checksum>(db: Database<Checksum>, names: seq<MigrationName>): seq<MigrationName> {
    if names == [] then []
    else
      var n := |names| - 1;
      Pending(db, names[..n]) + (if names[n] in db.recorded then [] else [names[n]])
  }

  function Executions(names: seq<MigrationName>, files: Files): seq<Executed> {
    seq(|names|, i requires 0 <= i < |names| => Executed(names[i], files.content(names[i])))
  }

  function Checksums<Checksum>(names: seq<MigrationName>, files: Files, checksum: string -> Checksum): map<MigrationName, Checksum> {
    map name <- names :: name := checksum(files.content(name))
  }

  function Extend<Checksum>(db: Database<Checksum>, names: seq<MigrationName>, files: Files, checksum: string -> Checksum): Database<Checksum> {
    Database(db.recorded + Checksums(names, files, checksum), db.executed + Executions(names, files))
  }

  ghost predicate Distinct(names: seq<MigrationName>) {
    forall i, j | 0 <= i < j < |names| :: names[i] != names[j]
  }

  lemma ListedDistinct(names: seq<MigrationName>)
    requires Versions(names) == OneTo(|names|)
    ensures Distinct(names)
  {
    forall i, j | 0 <= i < j < |names| ensures names[i] != names[j] {
      assert Versions(names)[i] == i + 1 && Versions(names)[j] == j + 1;
    }
  }

  lemma {:induction false} PendingAre<Checksum>(db: Database<Checksum>, names: seq<MigrationName>)
    ensures forall name :: name in Pending(db, names) <==> name in names && name !in db.recorded
  {
    if names != [] {
      var n := |names| - 1;
      PendingAre(db, names[..n]);
      assert names == names[..n] + [names[n]];
    }
  }

  function Record<Checksum>(db: Database<Checksum>, name: MigrationName, sql: string, checksum: string -> Checksum): Database<Checksum> {
    Database(db.recorded[name := checksum(sql)], db.executed + [Executed(name, sql)])
  }

  /** The work of the loop after some files. */
  ghost predicate Working<Checksum>(db: Database<Checksum>, work: Database<Checksum>, names: seq<MigrationName>, files: Files,
                                    checksum: string -> Checksum)
  {
    CanRun(db, names, files, checksum) && work == Extend(db, Pending(db, names), files, checksum)
  }

  /**
   One run.  It commits exactly when no recorded file changed and every pending one executes, and
   then executes and records exactly the pending files, in order; otherwise it rolls back.
  */
  method Migrate<Checksum(==)>(db: Database<Checksum>, names: seq<MigrationName>, files: Files, checksum: string -> Checksum)
    returns (committed: bool, db': Database<Checksum>)
    requires Distinct(names)
    ensures committed <==> CanRun(db, names, files, checksum)
    ensures db' == if committed then Extend(db, Pending(db, names), files, checksum) else db
  {
    var applied := db.recorded;
    var work := db;
    ExtendNone(db, files, checksum);
    for i := 0 to |names|
      invariant Working(db, work, names[..i], files, checksum)
    {
      var name := names[i];
      var sql := files.content(name);
      FileStep(db, work, names, i, files, checksum);
      if name in applied {
        if applied[name] != checksum(sql) {
          return false, db;
        }
      } else {
        if !files.works(sql) {
          return false, db;
        }
        work := Record(work, name, sql, checksum);
      }
    }
    assert names[..|names|] == names;
    return true, work;
  }

  lemma ExtendNone<Checksum>(db: Database<Checksum>, files: Files, checksum: string -> Checksum)
    ensures Extend(db, [], files, checksum) == db
  {
    assert Checksums([], files, checksum) == map[] && Executions([], files) == [];
  }

  lemma StoppedBy<Checksum>(db: Database<Checksum>, names: seq<MigrationName>, i: nat, files: Files, checksum: string -> Checksum)
    requires i < |names| && (Mismatched(db, names[i], files, checksum) || Failing(db, names[i], files))
    ensures !CanRun(db, names, files, checksum)
  {
    assert names[i] in names;
  }

  /** One file: it stops the run, is skipped, or is executed and recorded. */
  lemma FileStep<Checksum>(db: Database<Checksum>, work: Database<Checksum>, names: seq<MigrationName>, i: nat, files: Files,
                           checksum: string -> Checksum)
    requires i < |names| && Working(db, work, names[..i], files, checksum)
    ensures var name := names[i];
            var sql := files.content(name);
            if name in db.recorded then
              if db.recorded[name] != checksum(sql) then !CanRun(db, names, files, checksum)
              else Working(db, work, names[..i + 1], files, checksum)
            else
              if !files.works(sql) then !CanRun(db, names, files, checksum)
              else Working(db, Record(work, name, sql, checksum), names[..i + 1], files, checksum)
  {
    if Mismatched(db, names[i], files, checksum) || Failing(db, names[i], files) {
      StoppedBy(db, names, i, files, checksum);
    } else {
      NextPrefix(names, i);
      WorkingStep(db, work, names[..i], names[i], files, checksum);
    }
  }

  lemma WorkingStep<Checksum>(db: Database<Checksum>, work: Database<Checksum>, done: seq<MigrationName>, name: MigrationName,
                              files: Files, checksum: string -> Checksum)
    requires Working(db, work, done, files, checksum)
    requires !Mismatched(db, name, files, checksum) && !Failing(db, name, files)
    ensures Working(db, if name in db.recorded then work else Record(work, name, files.content(name), checksum),
                    done + [name], files, checksum)
  {
    CanRunStep(db, done, name, files, checksum);
    PendingStep(db, done, name);
    if name !in db.recorded {
      ExtendStep(db, Pending(db, done), name, files, checksum);
    } else {
      assert Pending(db, done) + [] == Pending(db, done);
    }
  }

  lemma CanRunStep<Checksum>(db: Database<Checksum>, names: seq<MigrationName>, name: MigrationName, files: Files,
                             checksum: string -> Checksum)
    requires CanRun(db, names, files, checksum) && !Mismatched(db, name, files, checksum) && !Failing(db, name, files)
    ensures CanRun(db, names + [name], files, checksum)
  {
    forall n <- names + [name] ensures !Mismatched(db, n, files, checksum) && !Failing(db, n, files) {
      assert n in names || n == name;
    }
  }

  lemma PendingStep<Checksum>(db: Database<Checksum>, names: seq<MigrationName>, name: MigrationName)
    ensures Pending(db, names + [name]) == Pending(db, names) + (if name in db.recorded then [] else [name])
  {
    assert (names + [name])[..|names|] == names;
  }

  lemma ExtendStep<Checksum>(db: Database<Checksum>, names: seq<MigrationName>, name: MigrationName, files: Files, checksum: string -> Checksum)
    ensures Extend(db, names + [name], files, checksum)
            == Record(Extend(db, names, files, checksum), name, files.content(name), checksum)
  {
    var one := [Executed(name, files.content(name))];
    assert Executions(names + [name], files) == Executions(names, files) + one;
    assert db.executed + (Executions(names, files) + one) == (db.executed + Executions(names, files)) + one;
    ChecksumsStep(db.recorded, names, name, files, checksum);
  }

  lemma ChecksumsStep<Checksum>(recorded: map<MigrationName, Checksum>, names: seq<MigrationName>, name: MigrationName,
                                files: Files, checksum: string -> Checksum)
    ensures recorded + Checksums(names + [name], files, checksum)
            == (recorded + Checksums(names, files, checksum))[name := checksum(files.content(name))]
  {
  }

  // ---------- what a run does ----------

  /** Every recorded file is unchanged, and every other one is accepted by the database. */
  ghost predicate RunsThrough<Checksum>(db: Database<Checksum>, names: seq<MigrationName>, files: Files, checksum: string -> Checksum) {
    forall i | 0 <= i < |names| ::
      if names[i] in db.recorded then db.recorded[names[i]] == checksum(files.content(names[i]))
      else files.works(files.content(names[i]))
  }

  /** The files that had no record have been executed, by ascending version, and recorded; nothing else has happened. */
  ghost predicate RanThrough<Checksum>(db: Database<Checksum>, db': Database<Checksum>, names: seq<MigrationName>, files: Files,
                                       checksum: string -> Checksum)
  {
    && (forall name :: name in db'.recorded <==> name in db.recorded || name in names)
    && (forall name <- db'.recorded ::
          db'.recorded[name] == if name in db.recorded then db.recorded[name] else checksum(files.content(name)))
    && |db.executed| <= |db'.executed| && db'.executed[..|db.executed|] == db.executed
    && var ran := db'.executed[|db.executed|..];
       && (forall x :: x in ran <==> x.name in names && x.name !in db.recorded && x.sql == files.content(x.name))
       && forall i, j | 0 <= i < j < |ran| :: Version(ran[i].name) < Version(ran[j].name)
  }

  lemma CanRunMeans<Checksum>(db: Database<Checksum>, names: seq<MigrationName>, files: Files, checksum: string -> Checksum)
    ensures CanRun(db, names, files, checksum) <==> RunsThrough(db, names, files, checksum)
  {
    if CanRun(db, names, files, checksum) {
      forall i | 0 <= i < |names|
        ensures if names[i] in db.recorded then db.recorded[names[i]] == checksum(files.content(names[i]))
                else files.works(files.content(names[i]))
      {
        assert !Mismatched(db, names[i], files, checksum) && !Failing(db, names[i], files);
      }
    }
  }

  ghost predicate VersionsAscend(names: seq<MigrationName>) {
    forall i, j | 0 <= i < j < |names| :: Version(names[i]) < Version(names[j])
  }

  lemma {:induction false} PendingAscends<Checksum>(db: Database<Checksum>, names: seq<MigrationName>)
    requires VersionsAscend(names)
    ensures VersionsAscend(Pending(db, names))
  {
    if names != [] {
      var n := |names| - 1;
      PendingAscends(db, names[..n]);
      PendingAre(db, names[..n]);
      var front := Pending(db, names[..n]);
      assert VersionsAscend(names[..n]);
      forall i | 0 <= i < |front| ensures Version(front[i]) < Version(names[n]) {
        assert front[i] in front;
        var k :| 0 <= k < n && names[..n][k] == front[i];
        assert names[k] == front[i];
      }
      assert Pending(db, names) == front + (if names[n] in db.recorded then [] else [names[n]]);
    }
  }

  lemma ExecutionsAre(names: seq<MigrationName>, files: Files)
    ensures forall x :: x in Executions(names, files) <==> x.name in names && x.sql == files.content(x.name)
  {
    forall x: Executed | x.name in names && x.sql == files.content(x.name) ensures x in Executions(names, files) {
      var i :| 0 <= i < |names| && names[i] == x.name;
      assert Executions(names, files)[i] == x;
    }
  }

  lemma ExtendedBy<Checksum>(db: Database<Checksum>, names: seq<MigrationName>, pending: seq<MigrationName>, files: Files,
                             checksum: string -> Checksum)
    requires forall name :: name in pending <==> name in names && name !in db.recorded
    requires VersionsAscend(pending)
    ensures RanThrough(db, Extend(db, pending, files, checksum), names, files, checksum)
  {
    var db' := Extend(db, pending, files, checksum);
    assert db'.executed[|db.executed|..] == Executions(pending, files);
    ExecutionsAre(pending, files);
    assert forall i | 0 <= i < |pending| :: Executions(pending, files)[i].name == pending[i];
  }

  /**
   What the transaction of a listed directory does: it commits exactly when every recorded file is
   unchanged and the database accepts every other one, and then it has executed exactly these, by
   ascending version, and recorded each; otherwise nothing has happened.
  */
  lemma RunMeans<Checksum>(db: Database<Checksum>, names: seq<MigrationName>, files: Files, checksum: string -> Checksum)
    requires Versions(names) == OneTo(|names|)
    ensures CanRun(db, names, files, checksum) <==> RunsThrough(db, names, files, checksum)
    ensures RanThrough(db, Extend(db, Pending(db, names), files, checksum), names, files, checksum)
  {
    CanRunMeans(db, names, files, checksum);
    assert VersionsAscend(names) by {
      forall i, j | 0 <= i < j < |names| ensures Version(names[i]) < Version(names[j]) {
        assert Versions(names)[i] == i + 1 && Versions(names)[j] == j + 1;
      }
    }
    PendingAscends(db, names);
    PendingAre(db, names);
    ExtendedBy(db, names, Pending(db, names), files, checksum);
  }

  // ---------- attempts ----------

  /** A run is refused by its listing, stopped by a lost connection, or ends as the transaction decides. */
  datatype Attempt = Attempt(entries: seq<string>, listing: Option<seq<MigrationName>>, files: Files, interrupted: bool)

  ghost predicate AttemptOk(a: Attempt) {
    && (a.listing.Some? <==> Acceptable(a.entries))
    && (a.listing.Some? ==> Lists(a.listing.value, a.entries))
  }

  ghost function After<Checksum>(db: Database<Checksum>, a: Attempt, checksum: string -> Checksum): Database<Checksum> {
    if a.listing.None? || a.interrupted || !CanRun(db, a.listing.value, a.files, checksum) then db
    else Extend(db, Pending(db, a.listing.value), a.files, checksum)
  }

  ghost function AfterAll<Checksum>(db: Database<Checksum>, attempts: seq<Attempt>, checksum: string -> Checksum): Database<Checksum>
    decreases |attempts|
  {
    if attempts == [] then db else AfterAll(After(db, attempts[0], checksum), attempts[1..], checksum)
  }

  function Names(executed: seq<Executed>): seq<MigrationName> {
    seq(|executed|, i requires 0 <= i < |executed| => executed[i].name)
  }

  /** Exactly the executed files are recorded, each under the checksum of the SQL that ran. */
  ghost predicate Consistent<Checksum>(db: Database<Checksum>, checksum: string -> Checksum) {
    && (forall name :: name in db.recorded <==> name in Names(db.executed))
    && Distinct(Names(db.executed))
    && forall i | 0 <= i < |db.executed| ::
         db.executed[i].name in db.recorded && db.recorded[db.executed[i].name] == checksum(db.executed[i].sql)
  }

  lemma NotDone(done: seq<MigrationName>, whole: seq<MigrationName>, n: nat)
    requires Distinct(whole) && done <= whole && |done| <= n < |whole|
    ensures whole[n] !in done
  {
    assert forall i | 0 <= i < |done| :: done[i] == whole[i] != whole[n];
  }

  /** Pending files continue the executed prefix. */
  lemma {:induction false} PendingContinues<Checksum>(db: Database<Checksum>, done: seq<MigrationName>, whole: seq<MigrationName>, n: nat)
    requires Distinct(whole) && done <= whole && n <= |whole|
    requires forall name :: name in db.recorded <==> name in done
    ensures done + Pending(db, whole[..n]) == if n <= |done| then done else whole[..n]
  {
    if n > 0 {
      PendingContinues(db, done, whole, n - 1);
      NextPrefix(whole, n - 1);
      ContinueStep(db, done, whole[..n - 1], whole[n - 1]);
      if n - 1 < |done| {
        assert whole[n - 1] == done[n - 1];
      } else {
        NotDone(done, whole, n - 1);
        assert whole[..|done|] == done;
      }
    }
  }

  lemma ContinueStep<Checksum>(db: Database<Checksum>, done: seq<MigrationName>, names: seq<MigrationName>, name: MigrationName)
    ensures done + Pending(db, names + [name])
         == (done + Pending(db, names)) + (if name in db.recorded then [] else [name])
  {
    PendingStep(db, names, name);
    Associate(done, Pending(db, names), if name in db.recorded then [] else [name]);
  }

  lemma ExtendConsistent<Checksum>(db: Database<Checksum>, names: seq<MigrationName>, files: Files, checksum: string -> Checksum)
    requires Consistent(db, checksum) && Distinct(Names(db.executed) + names)
    ensures Consistent(Extend(db, names, files, checksum), checksum)
    ensures Names(Extend(db, names, files, checksum).executed) == Names(db.executed) + names
  {
    var d := Extend(db, names, files, checksum);
    assert Names(d.executed) == Names(db.executed) + names;
    var all := Names(db.executed) + names;
    assert forall k | 0 <= k < |names| :: all[|db.executed| + k] == names[k];
    forall i | 0 <= i < |d.executed|
      ensures d.executed[i].name in d.recorded && d.recorded[d.executed[i].name] == checksum(d.executed[i].sql)
    {
      assert all[i] == d.executed[i].name;
      if i < |db.executed| {
        assert db.executed[i] == d.executed[i];
        assert d.executed[i].name !in names;
      }
    }
  }

  lemma CommitKeeps<Checksum>(db: Database<Checksum>, names: seq<MigrationName>, files: Files, checksum: string -> Checksum,
                              whole: seq<MigrationName>)
    requires Distinct(whole) && names <= whole && Consistent(db, checksum) && Names(db.executed) <= whole
    ensures var db' := Extend(db, Pending(db, names), files, checksum);
            Consistent(db', checksum) && Names(db'.executed) <= whole && db.executed <= db'.executed
  {
    var done := Names(db.executed);
    assert names == whole[..|names|];
    PendingContinues(db, done, whole, |names|);
    var all := done + Pending(db, names);
    assert all <= whole;
    PrefixDistinct(all, whole);
    ExtendConsistent(db, Pending(db, names), files, checksum);
  }

  lemma PrefixDistinct(prefix: seq<MigrationName>, whole: seq<MigrationName>)
    requires Distinct(whole) && prefix <= whole
    ensures Distinct(prefix)
  {
    assert forall i | 0 <= i < |prefix| :: prefix[i] == whole[i];
  }

  /** One attempt keeps the executed files a prefix of every listing there will ever be. */
  lemma AttemptKeeps<Checksum>(db: Database<Checksum>, a: Attempt, checksum: string -> Checksum,
                               whole: seq<MigrationName>, allEntries: seq<string>)
    requires AttemptOk(a) && Lists(whole, allEntries) && forall name <- a.entries :: name in allEntries
    requires Consistent(db, checksum) && Names(db.executed) <= whole
    ensures Consistent(After(db, a, checksum), checksum) && Names(After(db, a, checksum).executed) <= whole
    ensures db.executed <= After(db, a, checksum).executed
  {
    if After(db, a, checksum) != db {
      var names := a.listing.value;
      ListedDistinct(whole);
      SmallerListsPrefix(names, a.entries, whole, allEntries);
      CommitKeeps(db, names, a.files, checksum, whole);
    }
  }

  /**
   Over any sequence of runs whose directories all hold files of one that is accepted, in whatever
   order the runs commit, the executed files are a prefix of its listing, each executed exactly
   once and recorded under the checksum of what ran; nothing executed is ever undone.
  */
  lemma {:induction false} ExecutedIsPrefix<Checksum>(db: Database<Checksum>, attempts: seq<Attempt>, checksum: string -> Checksum,
                                                      whole: seq<MigrationName>, allEntries: seq<string>)
    requires Lists(whole, allEntries)
    requires forall a <- attempts :: AttemptOk(a) && forall name <- a.entries :: name in allEntries
    requires Consistent(db, checksum) && Names(db.executed) <= whole
    ensures Consistent(AfterAll(db, attempts, checksum), checksum)
    ensures Names(AfterAll(db, attempts, checksum).executed) <= whole
    ensures db.executed <= AfterAll(db, attempts, checksum).executed
    decreases |attempts|
  {
    if attempts != [] {
      AttemptKeeps(db, attempts[0], checksum, whole, allEntries);
      ExecutedIsPrefix(After(db, attempts[0], checksum), attempts[1..], checksum, whole, allEntries);
    }
  }

  /** From an empty database. */
  lemma ExecutedFromEmpty<Checksum>(attempts: seq<Attempt>, checksum: string -> Checksum,
                                    whole: seq<MigrationName>, allEntries: seq<string>)
    requires Lists(whole, allEntries)
    requires forall a <- attempts :: AttemptOk(a) && forall name <- a.entries :: name in allEntries
    ensures Consistent(AfterAll(Database(map[], []), attempts, checksum), checksum)
    ensures Names(AfterAll(Database(map[], []), attempts, checksum).executed) <= whole
  {
    ExecutedIsPrefix(Database(map[], []), attempts, checksum, whole, allEntries);
  }

  /** A committed run leaves nothing pending: repeating it commits and changes nothing. */
  lemma RepeatIsNoOp<Checksum>(db: Database<Checksum>, a: Attempt, works: string -> bool, checksum: string -> Checksum)
    requires a.listing.Some? && !a.interrupted && CanRun(db, a.listing.value, a.files, checksum)
    ensures var db' := After(db, a, checksum);
            var again := a.(files := Files(a.files.content, works));
            CanRun(db', again.listing.value, again.files, checksum) && After(db', again, checksum) == db'
  {
    var names := a.listing.value;
    var db' := After(db, a, checksum);
    var again := a.(files := Files(a.files.content, works));
    PendingAre(db, names);
    forall name <- names
      ensures name in db'.recorded && db'.recorded[name] == checksum(a.files.content(name))
    {
      assert !Mismatched(db, name, a.files, checksum);
    }
    NothingPending(db', names);
    ExtendNone(db', a.files, checksum);
    ExtendNone(db', again.files, checksum);
  }

  lemma {:induction false} NothingPending<Checksum>(db: Database<Checksum>, names: seq<MigrationName>)
    requires forall name <- names :: name in db.recorded
    ensures Pending(db, names) == []
  {
    if names != [] {
      NothingPending(db, names[..|names| - 1]);
    }
  }

  /** A changed file that has run stops every later run of it. */
  lemma ChangedFileStops<Checksum>(db: Database<Checksum>, a: Attempt, i: nat, checksum: string -> Checksum)
    requires Consistent(db, checksum) && a.listing.Some? && i < |db.executed| && db.executed[i].name in a.listing.value
    requires checksum(a.files.content(db.executed[i].name)) != checksum(db.executed[i].sql)
    ensures After(db, a, checksum) == db
  {
    assert Names(db.executed)[i] == db.executed[i].name;
    assert Mismatched(db, db.executed[i].name, a.files, checksum);
  }
}
