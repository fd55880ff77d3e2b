/**
 What catalogue rows say, field by field, and that a reading holds exactly that.  Nothing here
 goes through the parsers of the mapping: the rows of a value are written from its fields.
*/
module CatalogueRows {
  import opened Common
  import opened CanonicalJson
  import opened ChecksumPreimage
  import opened CatalogueMap

  predicate Spells(v: Value, s: string) {
    v.Str? && |v.s| == |s| && forall i | 0 <= i < |s| :: v.s[i] == s[i] as int
  }

  predicate Named(v: Value, name: Text) {
    v == Str(name) && name != []
  }

  predicate Names(v: Value, names: seq<Text>) {
    && v.Arr? && |v.items| == |names| && names != []
    && forall i | 0 <= i < |names| :: Named(v.items[i], names[i])
  }

  /** Every other field of the row is null. */
  ghost predicate OnlyFields(row: RawRow, used: Field -> bool) {
    forall f: Field :: !used(f) ==> Get(row, f) == Null
  }

  predicate OfSchema(f: Field) {
    f.RowKind? || f.SchemaName? || f.Owner?
  }

  predicate OfTable(f: Field) {
    f.RowKind? || f.SchemaName? || f.TableName? || f.Owner? || TableOnly(f)
  }

  predicate OfChild(f: Field) {
    f.RowKind? || f.SchemaName? || f.TableName? || f.Name?
  }

  predicate TableOnly(f: Field) {
    f.Kind? || f.HasRowSecurity? || f.HasForcedRowSecurity?
  }

  predicate ColumnOnly(f: Field) {
    || f.Ordinal? || f.IsNullable? || f.DefaultExpression? || f.Generated? || f.IdentityField? || f.RenderedType?
    || f.TypeSchema? || f.TypeName? || f.TypeKindField? || f.BaseTypeSchema? || f.BaseTypeName? || f.BaseTypeKind?
  }

  predicate ConstraintOnly(f: Field) {
    || f.ConstraintType? || f.ConstraintColumns? || f.RefSchema? || f.RefTable? || f.RefColumns? || f.OnUpdate?
    || f.OnDelete?
  }

  predicate IndexOnly(f: Field) {
    f.IsUnique? || f.IsExpression? || f.HasPredicate? || f.IndexColumns?
  }

  predicate OfColumn(f: Field) {
    OfChild(f) || ColumnOnly(f)
  }

  predicate OfConstraint(f: Field) {
    OfChild(f) || ConstraintOnly(f)
  }

  predicate OfIndex(f: Field) {
    OfChild(f) || IndexOnly(f)
  }

  // ---------- the rows of a value ----------

  ghost predicate SchemaRow(row: RawRow, x: Owned) {
    && Spells(Get(row, RowKind), "schema") && OnlyFields(row, OfSchema)
    && Named(Get(row, SchemaName), x.name) && Named(Get(row, Owner), x.owner)
  }

  ghost predicate TableRow(row: RawRow, h: Header) {
    && Spells(Get(row, RowKind), "table")
    && OnlyFields(row, OfTable)
    && Named(Get(row, SchemaName), h.schema) && Named(Get(row, TableName), h.name) && Named(Get(row, Owner), h.owner)
    && Spells(Get(row, Kind), match h.kind case Regular => "regular" case Partitioned => "partitioned")
    && Get(row, HasRowSecurity) == Bool(h.rowSecurity) && Get(row, HasForcedRowSecurity) == Bool(h.forced)
  }

  ghost predicate ChildRow(row: RawRow, kind: string, key: Key, name: Text) {
    && Spells(Get(row, RowKind), kind)
    && Named(Get(row, SchemaName), key.schema) && Named(Get(row, TableName), key.table) && Named(Get(row, Name), name)
  }

  function TypeLetter(kind: TypeKind): string {
    match kind
    case BaseKind => "b"
    case DomainKind => "d"
    case EnumKind => "e"
    case RangeKind => "r"
    case MultirangeKind => "m"
    case CompositeKind => "c"
    case PseudoKind => "p"
  }

  predicate TypeFields(schema: Value, name: Value, kind: Value, t: TypeIdentity) {
    Named(schema, t.schema) && Named(name, t.name) && Spells(kind, TypeLetter(t.kind))
  }

  /** A domain has its base type beside it, and no other type has one. */
  predicate BaseFields(row: RawRow, typ: TypeIdentity, base: Option<TypeIdentity>) {
    if typ.kind.DomainKind?
    then base.Some? && TypeFields(Get(row, BaseTypeSchema), Get(row, BaseTypeName), Get(row, BaseTypeKind), base.value)
    else
      base.None? && Get(row, BaseTypeSchema) == Null && Get(row, BaseTypeName) == Null && Get(row, BaseTypeKind) == Null
  }

  /** The default expression, which a generated column never has whatever the field holds. */
  predicate DefaultField(v: Value, generated: GeneratedKind, default: Option<Text>) {
    match default
    case Some(text) => generated.NotGenerated? && Named(v, text)
    case None => generated.NotGenerated? ==> v == Null
  }

  predicate ColumnFields(row: RawRow, c: Column) {
    && c.ordinal >= 1 && Get(row, Ordinal) == Num(c.ordinal as real)
    && Get(row, IsNullable) == Bool(c.nullable) && Named(Get(row, RenderedType), c.renderedType)
    && DefaultField(Get(row, DefaultExpression), c.generated, c.default)
    && Spells(Get(row, Generated), match c.generated case NotGenerated => "" case StoredGenerated => "s" case VirtualGenerated => "v")
    && Spells(Get(row, IdentityField), match c.identity case NoIdentity => "" case AlwaysIdentity => "a" case ByDefaultIdentity => "d")
    && TypeFields(Get(row, TypeSchema), Get(row, TypeName), Get(row, TypeKindField), c.typ)
    && BaseFields(row, c.typ, c.baseType)
  }

  ghost predicate ColumnRow(row: RawRow, x: Located<Column>) {
    && ChildRow(row, "column", x.key, x.child.name) && ColumnFields(row, x.child)
    && OnlyFields(row, OfColumn)
  }

  function ClassLetter(c: Classification): string {
    match c
    case PrimaryKey => "p"
    case UniqueKey => "u"
    case ForeignKey => "f"
    case Check => "c"
    case Exclusion => "x"
  }

  function ActionLetter(a: Action): string {
    match a
    case NoAction => "a"
    case Restrict => "r"
    case Cascade => "c"
    case SetNull => "n"
    case SetDefault => "d"
  }

  /** A check lists no columns; only a foreign key names a target and what happens on it. */
  predicate ConstraintFields(row: RawRow, k: Constraint) {
    && Spells(Get(row, ConstraintType), ClassLetter(k.classification))
    && (if k.classification.Check? then k.columns == [] && Get(row, ConstraintColumns) == Null
        else Names(Get(row, ConstraintColumns), k.columns))
    && if k.classification.ForeignKey? then
         && k.references.Some? && k.onUpdate.Some? && k.onDelete.Some?
         && Named(Get(row, RefSchema), k.references.value.schema) && Named(Get(row, RefTable), k.references.value.table)
         && Names(Get(row, RefColumns), k.references.value.columns)
         && Spells(Get(row, OnUpdate), ActionLetter(k.onUpdate.value))
         && Spells(Get(row, OnDelete), ActionLetter(k.onDelete.value))
       else
         && k.references.None? && k.onUpdate.None? && k.onDelete.None?
         && Get(row, RefSchema) == Null && Get(row, RefTable) == Null && Get(row, RefColumns) == Null
         && Get(row, OnUpdate) == Null && Get(row, OnDelete) == Null
  }

  ghost predicate ConstraintRow(row: RawRow, x: Located<Constraint>) {
    && ChildRow(row, "constraint", x.key, x.child.name) && ConstraintFields(row, x.child)
    && OnlyFields(row, OfConstraint)
  }

  predicate IndexColumn(v: Value, column: Option<Text>, isExpression: bool) {
    match column
    case Some(name) => Named(v, name)
    case None => v == Null && isExpression
  }

  predicate IndexFields(row: RawRow, x: Index) {
    && Get(row, IsUnique) == Bool(x.isUnique) && Get(row, IsExpression) == Bool(x.isExpression)
    && Get(row, HasPredicate) == Bool(x.hasPredicate)
    && (x.classification.ExpressionIndex? <==> x.isExpression)
    && (x.classification.PartialIndex? <==> !x.isExpression && x.hasPredicate)
    && Get(row, IndexColumns).Arr? && x.columns != [] && |Get(row, IndexColumns).items| == |x.columns|
    && forall i | 0 <= i < |x.columns| :: IndexColumn(Get(row, IndexColumns).items[i], x.columns[i], x.isExpression)
  }

  ghost predicate IndexRow(row: RawRow, x: Located<Index>) {
    && ChildRow(row, "index", x.key, x.child.name) && IndexFields(row, x.child)
    && OnlyFields(row, OfIndex)
  }

  // ---------- what is read from a row ----------

  lemma IsSpells(v: Value, s: string)
    requires forall c <- s :: c as int < 0x10000
    ensures Is(v, s) <==> Spells(v, s)
  {
    if Spells(v, s) {
      assert v.s == Units(s);
    }
  }

  lemma LetterSpells(v: Value, c: char)
    requires c as int < 0x10000
    ensures Is(v, [c]) <==> Spells(v, [c])
    ensures Spells(v, [c]) <==> v == Str([c as int])
  {
    IsSpells(v, [c]);
  }

  lemma NullIsOnly(row: RawRow, fields: set<Field>, used: Field -> bool)
    requires forall f: Field :: f in fields <==> !used(f)
    ensures NullIn(row, fields) <==> OnlyFields(row, used)
  {
  }

  lemma TableFields(f: Field)
    ensures f in TABLE_FIELDS <==> TableOnly(f)
  {
  }

  lemma ColumnFieldsAre(f: Field)
    ensures f in COLUMN_FIELDS <==> ColumnOnly(f)
  {
  }

  lemma ConstraintFieldsAre(f: Field)
    ensures f in CONSTRAINT_FIELDS <==> ConstraintOnly(f)
  {
  }

  lemma IndexFieldsAre(f: Field)
    ensures f in INDEX_FIELDS <==> IndexOnly(f)
  {
  }

  lemma FieldsApart(f: Field)
    ensures f.TableName? || f.Name? || TableOnly(f) || ColumnOnly(f) || ConstraintOnly(f) || IndexOnly(f) <==> !OfSchema(f)
    ensures f.Name? || ColumnOnly(f) || ConstraintOnly(f) || IndexOnly(f) <==> !OfTable(f)
    ensures f.Owner? || TableOnly(f) || ConstraintOnly(f) || IndexOnly(f) <==> !OfColumn(f)
    ensures f.Owner? || TableOnly(f) || ColumnOnly(f) || IndexOnly(f) <==> !OfConstraint(f)
    ensures f.Owner? || TableOnly(f) || ColumnOnly(f) || ConstraintOnly(f) <==> !OfIndex(f)
  {
  }

  /** Each row kind leaves exactly the fields of the others null. */
  lemma FieldsSplit(f: Field)
    ensures f.TableName? || f.Name? || f in TABLE_FIELDS || f in COLUMN_FIELDS || f in CONSTRAINT_FIELDS || f in INDEX_FIELDS
            <==> !OfSchema(f)
    ensures f.Name? || f in COLUMN_FIELDS || f in CONSTRAINT_FIELDS || f in INDEX_FIELDS <==> !OfTable(f)
    ensures f.Owner? || f in TABLE_FIELDS || f in CONSTRAINT_FIELDS || f in INDEX_FIELDS <==> !OfColumn(f)
    ensures f.Owner? || f in TABLE_FIELDS || f in COLUMN_FIELDS || f in INDEX_FIELDS <==> !OfConstraint(f)
    ensures f.Owner? || f in TABLE_FIELDS || f in COLUMN_FIELDS || f in CONSTRAINT_FIELDS <==> !OfIndex(f)
  {
    TableFields(f);
    ColumnFieldsAre(f);
    ConstraintFieldsAre(f);
    IndexFieldsAre(f);
    FieldsApart(f);
  }

  lemma ChildFieldsSplit(foreign: set<Field>, a: set<Field>, b: set<Field>, f: Field)
    requires foreign == a + b
    ensures f in {Owner} + TABLE_FIELDS + foreign <==> f.Owner? || f in TABLE_FIELDS || f in a || f in b
  {
  }

  /** A schema row gives exactly its name and owner. */
  lemma SchemaRowReads(row: RawRow, x: Owned)
    ensures MapOwned(row) == Some(x) <==> SchemaRow(row, x)
  {
    IsSpells(Get(row, RowKind), "schema");
    var fields := {TableName, Name} + TABLE_FIELDS + COLUMN_FIELDS + CONSTRAINT_FIELDS + INDEX_FIELDS;
    forall f: Field ensures f in fields <==> !OfSchema(f) {
      FieldsSplit(f);
    }
    NullIsOnly(row, fields, OfSchema);
  }

  lemma TableKindReads(v: Value, kind: TableKind)
    ensures MapTableKind(v) == Some(kind)
            <==> Spells(v, match kind case Regular => "regular" case Partitioned => "partitioned")
  {
    IsSpells(v, "regular");
    IsSpells(v, "partitioned");
  }

  /** A table row gives exactly the header it says. */
  lemma TableRowReads(row: RawRow, h: Header)
    ensures MapHeader(row) == Some(h) <==> TableRow(row, h)
  {
    IsSpells(Get(row, RowKind), "table");
    TableKindReads(Get(row, Kind), h.kind);
    var fields := {Name} + COLUMN_FIELDS + CONSTRAINT_FIELDS + INDEX_FIELDS;
    forall f: Field ensures f in fields <==> !OfTable(f) {
      FieldsSplit(f);
    }
    NullIsOnly(row, fields, OfTable);
  }

  lemma TypeKindReads(v: Value, kind: TypeKind)
    ensures MapTypeKind(v) == Some(kind) <==> Spells(v, TypeLetter(kind))
  {
    LetterSpells(v, 'b');
    LetterSpells(v, 'd');
    LetterSpells(v, 'e');
    LetterSpells(v, 'r');
    LetterSpells(v, 'm');
    LetterSpells(v, 'c');
    LetterSpells(v, 'p');
  }

  lemma TypeReads(schema: Value, name: Value, kind: Value, t: TypeIdentity)
    ensures MapType(schema, name, kind) == Some(t) <==> TypeFields(schema, name, kind, t)
  {
    TypeKindReads(kind, t.kind);
  }

  lemma GeneratedReads(v: Value, generated: GeneratedKind)
    ensures MapGenerated(v) == Some(generated)
            <==> Spells(v, match generated case NotGenerated => "" case StoredGenerated => "s" case VirtualGenerated => "v")
  {
    IsSpells(v, "");
    LetterSpells(v, 's');
    LetterSpells(v, 'v');
  }

  lemma IdentityReads(v: Value, identity: IdentityKind)
    ensures MapIdentity(v) == Some(identity)
            <==> Spells(v, match identity case NoIdentity => "" case AlwaysIdentity => "a" case ByDefaultIdentity => "d")
  {
    IsSpells(v, "");
    LetterSpells(v, 'a');
    LetterSpells(v, 'd');
  }

  lemma DefaultReads(v: Value, generated: GeneratedKind, default: Option<Text>)
    ensures MapDefault(generated, v) == Some(default) <==> DefaultField(v, generated, default)
  {
  }

  lemma BaseReads(row: RawRow, typ: TypeIdentity, base: Option<TypeIdentity>)
    ensures MapBaseType(typ, Get(row, BaseTypeSchema), Get(row, BaseTypeName), Get(row, BaseTypeKind)) == Some(base)
            <==> BaseFields(row, typ, base)
  {
    if base.Some? {
      TypeReads(Get(row, BaseTypeSchema), Get(row, BaseTypeName), Get(row, BaseTypeKind), base.value);
    }
  }

  lemma OrdinalReads(v: Value, ordinal: nat)
    ensures PositiveInteger(v) && v.n.Floor == ordinal <==> ordinal >= 1 && v == Num(ordinal as real)
  {
  }

  lemma ColumnReads(row: RawRow, c: Column)
    ensures MapColumn(row) == Some(c) <==> Named(Get(row, Name), c.name) && ColumnFields(row, c)
  {
    GeneratedReads(Get(row, Generated), c.generated);
    IdentityReads(Get(row, IdentityField), c.identity);
    TypeReads(Get(row, TypeSchema), Get(row, TypeName), Get(row, TypeKindField), c.typ);
    DefaultReads(Get(row, DefaultExpression), c.generated, c.default);
    BaseReads(row, c.typ, c.baseType);
    OrdinalReads(Get(row, Ordinal), c.ordinal);
  }

  lemma ChildReads<T>(row: RawRow, kind: string, foreign: set<Field>, used: Field -> bool, child: RawRow -> Option<T>, x: Located<T>)
    requires forall c <- kind :: c as int < 0x10000
    requires forall f: Field :: f in {Owner} + TABLE_FIELDS + foreign <==> !used(f)
    ensures MapChild(row, kind, foreign, child) == Some(x)
            <==> && Spells(Get(row, RowKind), kind) && OnlyFields(row, used)
                 && Named(Get(row, SchemaName), x.key.schema) && Named(Get(row, TableName), x.key.table)
                 && child(row) == Some(x.child)
  {
    IsSpells(Get(row, RowKind), kind);
    NullIsOnly(row, {Owner} + TABLE_FIELDS + foreign, used);
  }

  /** A column row gives exactly the table and column it says. */
  lemma ColumnRowReads(row: RawRow, x: Located<Column>)
    ensures LocateColumn(row) == Some(x) <==> ColumnRow(row, x)
  {
    ColumnReads(row, x.child);
    var foreign := CONSTRAINT_FIELDS + INDEX_FIELDS;
    forall f: Field ensures f in {Owner} + TABLE_FIELDS + foreign <==> !OfColumn(f) {
      FieldsSplit(f);
      ChildFieldsSplit(foreign, CONSTRAINT_FIELDS, INDEX_FIELDS, f);
    }
    ChildReads(row, "column", foreign, OfColumn, MapColumn, x);
  }

  lemma ClassReads(v: Value, c: Classification)
    ensures MapClassification(v) == Some(c) <==> Spells(v, ClassLetter(c))
  {
    LetterSpells(v, 'p');
    LetterSpells(v, 'u');
    LetterSpells(v, 'f');
    LetterSpells(v, 'c');
    LetterSpells(v, 'x');
  }

  lemma ActionReads(v: Value, a: Action)
    ensures MapAction(v) == Some(a) <==> Spells(v, ActionLetter(a))
  {
    LetterSpells(v, 'a');
    LetterSpells(v, 'r');
    LetterSpells(v, 'c');
    LetterSpells(v, 'n');
    LetterSpells(v, 'd');
  }

  lemma NamesReads(v: Value, names: seq<Text>)
    ensures NonEmptyStrings(v) && Strings(v) == names <==> Names(v, names)
  {
    if Names(v, names) {
      assert forall i | 0 <= i < |names| :: Named(v.items[i], names[i]);
      assert Strings(v) == names;
    }
    if NonEmptyStrings(v) && Strings(v) == names {
      forall i | 0 <= i < |names| ensures Named(v.items[i], names[i]) {
        assert Strings(v)[i] == names[i] && NonEmpty(v.items[i]);
      }
    }
  }

  lemma ReferenceNulls(row: RawRow)
    ensures NullIn(row, REFERENCE_FIELDS)
            <==> && Get(row, RefSchema) == Null && Get(row, RefTable) == Null && Get(row, RefColumns) == Null
                 && Get(row, OnUpdate) == Null && Get(row, OnDelete) == Null
  {
    assert forall f :: f in REFERENCE_FIELDS <==> f in [RefSchema, RefTable, RefColumns, OnUpdate, OnDelete];
  }

  lemma ConstraintReads(row: RawRow, k: Constraint)
    ensures MapConstraint(row) == Some(k) <==> Named(Get(row, Name), k.name) && ConstraintFields(row, k)
  {
    ClassReads(Get(row, ConstraintType), k.classification);
    NamesReads(Get(row, ConstraintColumns), k.columns);
    ReferenceNulls(row);
    if k.onUpdate.Some? {
      ActionReads(Get(row, OnUpdate), k.onUpdate.value);
    }
    if k.onDelete.Some? {
      ActionReads(Get(row, OnDelete), k.onDelete.value);
    }
    if k.references.Some? {
      NamesReads(Get(row, RefColumns), k.references.value.columns);
    }
  }

  /** A constraint row gives exactly the table and constraint it says. */
  lemma ConstraintRowReads(row: RawRow, x: Located<Constraint>)
    ensures LocateConstraint(row) == Some(x) <==> ConstraintRow(row, x)
  {
    ConstraintReads(row, x.child);
    var foreign := COLUMN_FIELDS + INDEX_FIELDS;
    forall f: Field ensures f in {Owner} + TABLE_FIELDS + foreign <==> !OfConstraint(f) {
      FieldsSplit(f);
      ChildFieldsSplit(foreign, COLUMN_FIELDS, INDEX_FIELDS, f);
    }
    ChildReads(row, "constraint", foreign, OfConstraint, MapConstraint, x);
  }

  lemma IndexReads(row: RawRow, x: Index)
    ensures MapIndex(row) == Some(x) <==> Named(Get(row, Name), x.name) && IndexFields(row, x)
  {
    if MapIndex(row) == Some(x) {
      forall i | 0 <= i < |x.columns|
        ensures IndexColumn(Get(row, IndexColumns).items[i], x.columns[i], x.isExpression)
      {
        assert IndexColumnsOk(Get(row, IndexColumns), Get(row, IsExpression).b);
      }
    }
    if Named(Get(row, Name), x.name) && IndexFields(row, x) {
      var items := Get(row, IndexColumns).items;
      forall i | 0 <= i < |items|
        ensures NonEmpty(items[i]) || (x.isExpression && items[i] == Null)
        ensures (if items[i].Str? then Some(items[i].s) else None) == x.columns[i]
      {
        assert IndexColumn(items[i], x.columns[i], x.isExpression);
      }
      assert MapIndex(row).value.columns == x.columns;
    }
  }

  /** An index row gives exactly the table and index it says. */
  lemma IndexRowReads(row: RawRow, x: Located<Index>)
    ensures LocateIndex(row) == Some(x) <==> IndexRow(row, x)
  {
    IndexReads(row, x.child);
    var foreign := COLUMN_FIELDS + CONSTRAINT_FIELDS;
    forall f: Field ensures f in {Owner} + TABLE_FIELDS + foreign <==> !OfIndex(f) {
      FieldsSplit(f);
      ChildFieldsSplit(foreign, COLUMN_FIELDS, CONSTRAINT_FIELDS, f);
    }
    ChildReads(row, "index", foreign, OfIndex, MapIndex, x);
  }

  // ---------- what is read from all rows ----------

  /** The rows of a list and the places of a level correspond one to one, by what the rows say. */
  ghost predicate Reads<P(!new), T(!new)>(list: seq<RawRow>, says: (RawRow, T) -> bool, shows: (P, T) -> bool) {
    && (forall i | 0 <= i < |list| :: RowIsShown(list[i], says, shows))
    && (forall p, x :: shows(p, x) ==> exists i | 0 <= i < |list| :: says(list[i], x))
    && (forall i, j, x | 0 <= i < |list| && 0 <= j < |list| :: says(list[i], x) && says(list[j], x) ==> i == j)
    && (forall p, p', x :: shows(p, x) && shows(p', x) ==> p == p')
  }

  ghost predicate RowIsShown<P(!new), T(!new)>(row: RawRow, says: (RawRow, T) -> bool, shows: (P, T) -> bool) {
    exists p, x :: says(row, x) && shows(p, x)
  }

  lemma ReadsWhenParsed<P(!new), T(!new)>(
    list: seq<RawRow>, parse: RawRow -> Option<T>, says: (RawRow, T) -> bool, shows: (P, T) -> bool)
    requires OneToOne(list, parse, shows)
    requires forall row, x :: parse(row) == Some(x) <==> says(row, x)
    ensures Reads(list, says, shows)
  {
    forall i | 0 <= i < |list| ensures RowIsShown(list[i], says, shows) {
      assert HasPlace(shows, parse(list[i]).value);
      var p :| shows(p, parse(list[i]).value);
      assert says(list[i], parse(list[i]).value);
    }
    forall p, x | shows(p, x) ensures exists i | 0 <= i < |list| :: says(list[i], x) {
      assert Says(list, parse, x);
      var row :| row in list && parse(row) == Some(x);
      var i :| 0 <= i < |list| && list[i] == row;
      assert says(list[i], x);
    }
    forall i, j, x | 0 <= i < |list| && 0 <= j < |list| && says(list[i], x) && says(list[j], x) ensures i == j {
      assert parse(list[i]) == Some(x) && parse(list[j]) == Some(x);
    }
  }

  ghost function SayOwned(): (RawRow, Owned) -> bool {
    (row: RawRow, x: Owned) => SchemaRow(row, x)
  }

  ghost function SayHeader(): (RawRow, Header) -> bool {
    (row: RawRow, x: Header) => TableRow(row, x)
  }

  ghost function SayColumn(): (RawRow, Located<Column>) -> bool {
    (row: RawRow, x: Located<Column>) => ColumnRow(row, x)
  }

  ghost function SayConstraint(): (RawRow, Located<Constraint>) -> bool {
    (row: RawRow, x: Located<Constraint>) => ConstraintRow(row, x)
  }

  ghost function SayIndex(): (RawRow, Located<Index>) -> bool {
    (row: RawRow, x: Located<Index>) => IndexRow(row, x)
  }

  lemma ParsersSay()
    ensures forall row, x :: MapOwned(row) == Some(x) <==> SayOwned()(row, x)
    ensures forall row, x :: MapHeader(row) == Some(x) <==> SayHeader()(row, x)
    ensures forall row, x :: LocateColumn(row) == Some(x) <==> SayColumn()(row, x)
    ensures forall row, x :: LocateConstraint(row) == Some(x) <==> SayConstraint()(row, x)
    ensures forall row, x :: LocateIndex(row) == Some(x) <==> SayIndex()(row, x)
  {
    forall row, x ensures MapOwned(row) == Some(x) <==> SayOwned()(row, x) {
      SchemaRowReads(row, x);
    }
    forall row, x ensures MapHeader(row) == Some(x) <==> SayHeader()(row, x) {
      TableRowReads(row, x);
    }
    forall row, x ensures LocateColumn(row) == Some(x) <==> SayColumn()(row, x) {
      ColumnRowReads(row, x);
    }
    forall row, x ensures LocateConstraint(row) == Some(x) <==> SayConstraint()(row, x) {
      ConstraintRowReads(row, x);
    }
    forall row, x ensures LocateIndex(row) == Some(x) <==> SayIndex()(row, x) {
      IndexRowReads(row, x);
    }
  }

  /** Names ascend by code units. */
  ghost predicate NameBefore(a: Text, b: Text) {
    exists n :: FirstDiffers(a, b, n)
  }

  ghost predicate TableOrdered(t: Table) {
    && (forall i, j | 0 <= i < j < |t.columns| :: t.columns[i].ordinal < t.columns[j].ordinal)
    && (forall i, j | 0 <= i < j < |t.constraints| :: NameBefore(t.constraints[i].name, t.constraints[j].name))
    && (forall i, j | 0 <= i < j < |t.indexes| :: NameBefore(t.indexes[i].name, t.indexes[j].name))
  }

  /** Schemas, their tables and what these hold are in order, and a table is under its schema. */
  ghost predicate SchemaOrdered(s: Schema) {
    && (forall i, j | 0 <= i < j < |s.tables| :: NameBefore(s.tables[i].header.name, s.tables[j].header.name))
    && (forall i | 0 <= i < |s.tables| :: s.tables[i].header.schema == s.self.name && TableOrdered(s.tables[i]))
  }

  ghost predicate Ordered(c: Catalogue) {
    && (forall i, j | 0 <= i < j < |c| :: NameBefore(c[i].self.name, c[j].self.name))
    && (forall i | 0 <= i < |c| :: SchemaOrdered(c[i]))
  }

  lemma DescribedIsOrdered(c: Catalogue, rows: Rows)
    requires Describes(c, rows)
    ensures Ordered(c)
  {
    forall a, b | Less(a, b) ensures NameBefore(a, b) {
      LessIsUnitOrder(a, b);
    }
    forall i | 0 <= i < |c| ensures SchemaOrdered(c[i]) {
      assert c[i] in c && SchemaHolds(c[i], rows);
      forall j | 0 <= j < |c[i].tables|
        ensures c[i].tables[j].header.schema == c[i].self.name && TableOrdered(c[i].tables[j])
      {
        assert Headers(c[i].tables)[j] in Headers(c[i].tables);
        assert c[i].tables[j] in c[i].tables && TableHolds(c[i].tables[j], rows);
      }
    }
  }

  /**
   A reading, field by field: rows and places correspond one to one at all five levels, each
   place holds what its row says in every field, and every level is in order.
  */
  lemma ReadingHoldsTheRows(c: Catalogue, rows: Rows)
    requires Describes(c, rows) && Acceptable(rows)
    ensures Reads(rows.schemas, SayOwned(), SchemaPlaces(c))
    ensures Reads(rows.tables, SayHeader(), TablePlaces(c))
    ensures Reads(rows.columns, SayColumn(), ChildPlaces(c, ColumnsOf))
    ensures Reads(rows.constraints, SayConstraint(), ChildPlaces(c, ConstraintsOf))
    ensures Reads(rows.indexes, SayIndex(), ChildPlaces(c, IndexesOf))
    ensures Ordered(c)
  {
    Lossless(c, rows);
    ParsersSay();
    ReadsWhenParsed(rows.schemas, MapOwned, SayOwned(), SchemaPlaces(c));
    ReadsWhenParsed(rows.tables, MapHeader, SayHeader(), TablePlaces(c));
    ReadsWhenParsed(rows.columns, LocateColumn, SayColumn(), ChildPlaces(c, ColumnsOf));
    ReadsWhenParsed(rows.constraints, LocateConstraint, SayConstraint(), ChildPlaces(c, ConstraintsOf));
    ReadsWhenParsed(rows.indexes, LocateIndex, SayIndex(), ChildPlaces(c, IndexesOf));
    DescribedIsOrdered(c, rows);
  }

  // ---------- which rows are accepted ----------

  /** Every row says something that has its place, and no two rows say things that clash. */
  ghost predicate RowsFine<T(!new)>(list: seq<RawRow>, says: (RawRow, T) -> bool, placed: T -> bool, clash: (T, T) -> bool) {
    && (forall i | 0 <= i < |list| :: RowIsPlaced(list[i], says, placed))
    && (forall i, j, x, y | 0 <= i < j < |list| :: says(list[i], x) && says(list[j], y) ==> !clash(x, y))
  }

  ghost predicate RowIsPlaced<T(!new)>(row: RawRow, says: (RawRow, T) -> bool, placed: T -> bool) {
    exists x :: says(row, x) && placed(x)
  }

  ghost predicate HasSchemaRow(schemas: seq<RawRow>, name: Text) {
    exists row, x :: row in schemas && SchemaRow(row, x) && x.name == name
  }

  ghost predicate HasTableRow(tables: seq<RawRow>, key: Key) {
    exists row, h :: row in tables && TableRow(row, h) && h.schema == key.schema && h.name == key.table
  }

  /**
   Well-formed rows: a table's schema and a child's table have a row; schema names, table names
   within a schema, and column ordinals, column, constraint and index names within a table are unique.
  */
  ghost predicate Wellformed(rows: Rows) {
    && RowsFine(rows.schemas, SayOwned(), (x: Owned) => true, (x: Owned, y: Owned) => x.name == y.name)
    && RowsFine(rows.tables, SayHeader(), (h: Header) => HasSchemaRow(rows.schemas, h.schema),
                (h: Header, k: Header) => h.schema == k.schema && h.name == k.name)
    && RowsFine(rows.columns, SayColumn(), (x: Located<Column>) => HasTableRow(rows.tables, x.key),
                (x: Located<Column>, y: Located<Column>) =>
                  x.key == y.key && (x.child.ordinal == y.child.ordinal || x.child.name == y.child.name))
    && RowsFine(rows.constraints, SayConstraint(), (x: Located<Constraint>) => HasTableRow(rows.tables, x.key),
                (x: Located<Constraint>, y: Located<Constraint>) => x.key == y.key && x.child.name == y.child.name)
    && RowsFine(rows.indexes, SayIndex(), (x: Located<Index>) => HasTableRow(rows.tables, x.key),
                (x: Located<Index>, y: Located<Index>) => x.key == y.key && x.child.name == y.child.name)
  }

  lemma RowsAreFine<T(!new)>(list: seq<RawRow>, parse: RawRow -> Option<T>, placed: T -> bool, apart: (T, T) -> bool,
                             says: (RawRow, T) -> bool, placed': T -> bool, clash: (T, T) -> bool)
    requires forall row, x :: parse(row) == Some(x) <==> says(row, x)
    requires forall x :: placed(x) <==> placed'(x)
    requires forall x, y :: apart(x, y) <==> !clash(x, y)
    ensures RowsOk(list, parse, placed, apart) <==> RowsFine(list, says, placed', clash)
  {
    if RowsOk(list, parse, placed, apart) {
      forall i | 0 <= i < |list| ensures RowIsPlaced(list[i], says, placed') {
        assert list[i] in list && says(list[i], parse(list[i]).value);
      }
      forall i, j, x, y | 0 <= i < j < |list| && says(list[i], x) && says(list[j], y) ensures !clash(x, y) {
        assert RowsApart(parse, apart)(list[i], list[j]);
        assert parse(list[i]) == Some(x) && parse(list[j]) == Some(y);
      }
    }
    if RowsFine(list, says, placed', clash) {
      forall row | row in list ensures parse(row).Some? && placed(parse(row).value) {
        var i :| 0 <= i < |list| && list[i] == row;
        assert RowIsPlaced(list[i], says, placed');
      }
      forall i, j | 0 <= i < j < |list| ensures RowsApart(parse, apart)(list[i], list[j]) {
        if parse(list[i]).Some? && parse(list[j]).Some? {
          assert says(list[i], parse(list[i]).value) && says(list[j], parse(list[j]).value);
        }
      }
    }
  }

  lemma PlacesAre(rows: Rows)
    ensures forall name :: SchemaPresent(rows.schemas, name) <==> HasSchemaRow(rows.schemas, name)
    ensures forall key :: TablePresent(rows.tables, key) <==> HasTableRow(rows.tables, key)
  {
    forall name ensures SchemaPresent(rows.schemas, name) <==> HasSchemaRow(rows.schemas, name) {
      SchemaPlaceIs(rows.schemas, name);
    }
    forall key ensures TablePresent(rows.tables, key) <==> HasTableRow(rows.tables, key) {
      TablePlaceIs(rows.tables, key);
    }
  }

  lemma SchemaPlaceIs(schemas: seq<RawRow>, name: Text)
    ensures SchemaPresent(schemas, name) <==> HasSchemaRow(schemas, name)
  {
    if x: Owned :| Says(schemas, MapOwned, x) && x.name == name {
      var row :| row in schemas && MapOwned(row) == Some(x);
      SchemaRowReads(row, x);
    }
    if row, x :| row in schemas && SchemaRow(row, x) && x.name == name {
      SchemaRowReads(row, x);
      assert Says(schemas, MapOwned, x);
    }
  }

  lemma TablePlaceIs(tables: seq<RawRow>, key: Key)
    ensures TablePresent(tables, key) <==> HasTableRow(tables, key)
  {
    if h: Header :| Says(tables, MapHeader, h) && KeyOf(h) == key {
      var row :| row in tables && MapHeader(row) == Some(h);
      TableRowReads(row, h);
    }
    if row, h :| row in tables && TableRow(row, h) && h.schema == key.schema && h.name == key.table {
      TableRowReads(row, h);
      assert Says(tables, MapHeader, h) && KeyOf(h) == key;
    }
  }

  lemma ChildrenAreFine<T(!new)>(rows: Rows, list: seq<RawRow>, parse: RawRow -> Option<Located<T>>, apart: (T, T) -> bool,
                                 says: (RawRow, Located<T>) -> bool, clash: (Located<T>, Located<T>) -> bool)
    requires forall row, x :: parse(row) == Some(x) <==> says(row, x)
    requires forall x, y :: clash(x, y) <==> x.key == y.key && !apart(x.child, y.child)
    ensures ChildrenOk(list, rows.tables, parse, apart)
            <==> RowsFine(list, says, (x: Located<T>) => HasTableRow(rows.tables, x.key), clash)
  {
    PlacesAre(rows);
    RowsAreFine(list, parse, InTable(rows.tables), Within(apart), says,
                (x: Located<T>) => HasTableRow(rows.tables, x.key), clash);
  }

  /** The rows that are read, said over their fields. */
  lemma AcceptableIsWellformed(rows: Rows)
    ensures Acceptable(rows) <==> Wellformed(rows)
  {
    ParsersSay();
    PlacesAre(rows);
    RowsAreFine(rows.schemas, MapOwned, (x: Owned) => true, OwnedApart, SayOwned(), (x: Owned) => true,
                (x: Owned, y: Owned) => x.name == y.name);
    RowsAreFine(rows.tables, MapHeader, InSchema(rows.schemas), HeadersApart, SayHeader(),
                (h: Header) => HasSchemaRow(rows.schemas, h.schema),
                (h: Header, k: Header) => h.schema == k.schema && h.name == k.name);
    ChildrenAreFine(rows, rows.columns, LocateColumn, ColumnsApart, SayColumn(),
                    (x: Located<Column>, y: Located<Column>) =>
                      x.key == y.key && (x.child.ordinal == y.child.ordinal || x.child.name == y.child.name));
    ChildrenAreFine(rows, rows.constraints, LocateConstraint, ConstraintsApart, SayConstraint(),
                    (x: Located<Constraint>, y: Located<Constraint>) => x.key == y.key && x.child.name == y.child.name);
    ChildrenAreFine(rows, rows.indexes, LocateIndex, IndexesApart, SayIndex(),
                    (x: Located<Index>, y: Located<Index>) => x.key == y.key && x.child.name == y.child.name);
  }
}
