/** The names of the objects the module creates: what they are made of, and when two of them are equal. */
module ObjectNames {
  import opened Common
  import Ddl
  import opened Commands
  import Ownership

  // ---------- how a name is written ----------

  /** The parts with a separator before each but the first. */
  function Glued(parts: seq<string>, separator: string): string {
    if parts == [] then "" else parts[0] + Following(parts[1..], separator)
  }

  function Following(parts: seq<string>, separator: string): string {
    if parts == [] then "" else separator + parts[0] + Following(parts[1..], separator)
  }

  lemma {:induction false} JoinIsGlued(parts: seq<string>, separator: string)
    ensures Join(parts, separator) == Glued(parts, separator)
  {
    if |parts| >= 2 {
      JoinIsGlued(parts[1..], separator);
    } else if |parts| == 1 {
      assert Following(parts[1..], separator) == "";
    }
  }

  const NUL: string := "\U{0}"

  /** The text whose digest tells objects apart. */
  function Identity(kind: string, table: string, columns: seq<string>): string {
    table + NUL + Glued(columns, NUL) + NUL + kind
  }

  /**
   A name is at most 54 characters that say what the object is for, an underscore, and the
   first eight digits of its identity's digest.
  */
  lemma NameIsWritten(hash: string -> string, kind: string, table: string, columns: seq<string>)
    requires |hash(Identity(kind, table, columns))| >= 8
    ensures var readable := "mjb_" + table + "_" + Glued(columns, "_") + "_" + kind;
            DeterministicObjectName(hash, kind, table, columns)
            == (if |readable| <= 54 then readable else readable[..54]) + "_" + hash(Identity(kind, table, columns))[..8]
  {
    JoinIsGlued(columns, "_");
    JoinIsGlued(columns, NUL);
    assert Digest(hash, kind, table, columns) == hash(Identity(kind, table, columns))[..8];
  }

  /** A policy's kind is its template's word. */
  lemma PolicyKinds(hash: string -> string, table: string, column: string)
    ensures PolicyName(hash, table, column, Ddl.Read) == DeterministicObjectName(hash, "read", table, [column])
    ensures PolicyName(hash, table, column, Ddl.Insert) == DeterministicObjectName(hash, "insert", table, [column])
    ensures PolicyName(hash, table, column, Ddl.Update) == DeterministicObjectName(hash, "update", table, [column])
    ensures PolicyName(hash, table, column, Ddl.Delete) == DeterministicObjectName(hash, "delete", table, [column])
  {
  }

  // ---------- when two names are equal ----------

  predicate Plain(s: string) {
    '\U{0}' !in s
  }

  predicate AllPlain(parts: seq<string>) {
    forall i | 0 <= i < |parts| :: Plain(parts[i])
  }

  lemma {:induction false} GluedInjective(a: seq<string>, b: seq<string>)
    requires AllPlain(a) && AllPlain(b) && a != [] && b != []
    requires Glued(a, NUL) == Glued(b, NUL)
    ensures a == b
  {
    GluedHead(a);
    GluedHead(b);
    if |a| == 1 || |b| == 1 {
      assert |a| == 1 <==> '\U{0}' !in Glued(a, NUL);
      assert a == [a[0]] && b == [b[0]];
    } else {
      JoinInjective(a[0], Glued(a[1..], NUL), b[0], Glued(b[1..], NUL), '\U{0}');
      GluedInjective(a[1..], b[1..]);
      assert a == [a[0]] + a[1..] && b == [b[0]] + b[1..];
    }
  }

  lemma GluedHead(parts: seq<string>)
    requires parts != []
    ensures |parts| == 1 ==> Glued(parts, NUL) == parts[0]
    ensures |parts| > 1 ==> Glued(parts, NUL) == parts[0] + ['\U{0}'] + Glued(parts[1..], NUL)
    ensures |parts| > 1 ==> '\U{0}' in Glued(parts, NUL)
  {
    if |parts| > 1 {
      var rest := Glued(parts[1..], NUL);
      assert Following(parts[1..], NUL) == NUL + rest;
      assert Glued(parts, NUL)[|parts[0]|] == '\U{0}';
    } else {
      assert Following(parts[1..], NUL) == "";
    }
  }

  lemma IdentityIsGlued(kind: string, table: string, columns: seq<string>)
    requires columns != []
    ensures Identity(kind, table, columns) == Glued([table] + columns + [kind], NUL)
  {
    assert ([table] + columns + [kind])[1..] == columns + [kind];
    GluedLast(columns, kind);
    assert Following(columns + [kind], NUL) == NUL + Glued(columns + [kind], NUL);
  }

  lemma {:induction false} GluedLast(parts: seq<string>, last: string)
    requires parts != []
    ensures Glued(parts + [last], NUL) == Glued(parts, NUL) + NUL + last
    decreases |parts|
  {
    assert (parts + [last])[1..] == parts[1..] + [last];
    if |parts| == 1 {
      assert parts[1..] + [last] == [last] && Following([last][1..], NUL) == "";
      assert Following([last], NUL) == NUL + last;
    } else {
      GluedLast(parts[1..], last);
      assert Following(parts[1..] + [last], NUL) == NUL + Glued(parts[1..] + [last], NUL);
      assert Following(parts[1..], NUL) == NUL + Glued(parts[1..], NUL);
    }
  }

  /** The digested text tells objects apart, also when their names run together. */
  lemma IdentityInjective(kind: string, table: string, columns: seq<string>, kind': string, table': string, columns': seq<string>)
    requires Plain(kind) && Plain(table) && AllPlain(columns) && columns != []
    requires Plain(kind') && Plain(table') && AllPlain(columns') && columns' != []
    requires Identity(kind, table, columns) == Identity(kind', table', columns')
    ensures kind == kind' && table == table' && columns == columns'
  {
    IdentityIsGlued(kind, table, columns);
    IdentityIsGlued(kind', table', columns');
    var parts, parts' := [table] + columns + [kind], [table'] + columns' + [kind'];
    GluedInjective(parts, parts');
    assert parts[0] == table && parts'[0] == table';
    assert parts[|parts| - 1] == kind && parts'[|parts'| - 1] == kind';
    assert parts[1..|parts| - 1] == columns && parts'[1..|parts'| - 1] == columns';
  }

  /** Two objects get one name only where the shortened digests of their different identities agree. */
  lemma EqualNames(hash: string -> string, kind: string, table: string, columns: seq<string>,
                   kind': string, table': string, columns': seq<string>)
    requires Plain(kind) && Plain(table) && AllPlain(columns) && columns != []
    requires Plain(kind') && Plain(table') && AllPlain(columns') && columns' != []
    requires var x, y := Identity(kind, table, columns), Identity(kind', table', columns');
             |hash(x)| >= 8 && |hash(y)| >= 8 && (x != y ==> hash(x)[..8] != hash(y)[..8])
    requires DeterministicObjectName(hash, kind, table, columns) == DeterministicObjectName(hash, kind', table', columns')
    ensures kind == kind' && table == table' && columns == columns'
  {
    var x, y := Identity(kind, table, columns), Identity(kind', table', columns');
    NameIsWritten(hash, kind, table, columns);
    NameIsWritten(hash, kind', table', columns');
    var name := DeterministicObjectName(hash, kind, table, columns);
    assert name[|name| - 8..] == hash(x)[..8] && name[|name| - 8..] == hash(y)[..8];
    IdentityInjective(kind, table, columns, kind', table', columns');
  }

  /** The shortened digest tells every two of these identities apart. */
  ghost predicate DigestsDiffer(hash: string -> string, table: string, columns: seq<string>) {
    && (forall c, t: Ddl.Template | c in columns :: |hash(Identity(TemplateName(t), table, [c]))| >= 8)
    && (forall c, t: Ddl.Template, c', t': Ddl.Template | c in columns && c' in columns ::
          Identity(TemplateName(t), table, [c]) != Identity(TemplateName(t'), table, [c']) ==>
            hash(Identity(TemplateName(t), table, [c]))[..8] != hash(Identity(TemplateName(t'), table, [c']))[..8])
  }

  /** A table's policy names are the module's for one column and template only, unless digests collide. */
  lemma PolicyNamesDistinct(hash: string -> string, table: string, columns: seq<string>)
    requires Plain(table) && AllPlain(columns) && DigestsDiffer(hash, table, columns)
    ensures Ownership.NamesDistinct(hash, table, columns)
  {
    forall c, t, c', t' | c in columns && c' in columns && PolicyName(hash, table, c, t) == PolicyName(hash, table, c', t')
      ensures c == c' && t == t'
    {
      EqualNames(hash, TemplateName(t), table, [c], TemplateName(t'), table, [c']);
      assert [c][0] == [c'][0];
      TemplateNamesDiffer(t, t');
    }
  }

  lemma TemplateNamesDiffer(t: Ddl.Template, t': Ddl.Template)
    requires TemplateName(t) == TemplateName(t')
    ensures t == t'
  {
    assert TemplateName(t)[0] == TemplateName(t')[0];
  }
}
