/**
 Grouping catalogue rows into the sorted model of schemas, tables, columns, constraints and
 indexes.  Every refusal is the same internal error, so a refused reading is `None`.
*/
module CatalogueMap {
  import opened Common
  import opened Sorting
  import opened CanonicalJson
  import opened ChecksumPreimage

  // ---------- rows ----------

  datatype Value =
    | Undefined
    | Null
    | Str(s: Text)
    | Bool(b: bool)
    | Num(n: real)
    | Arr(items: seq<Value>)
    | Other

  datatype Field =
    | RowKind | SchemaName | TableName | Ordinal | Name | Owner | Kind | HasRowSecurity | HasForcedRowSecurity
    | IsNullable | DefaultExpression | Generated | IdentityField | RenderedType
    | TypeSchema | TypeName | TypeKindField | BaseTypeSchema | BaseTypeName | BaseTypeKind
    | ConstraintType | ConstraintColumns | RefSchema | RefTable | RefColumns | OnUpdate | OnDelete
    | IsUnique | IsExpression | HasPredicate | IndexColumns

  type RawRow = map<Field, Value>

  function Get(row: RawRow, f: Field): Value {
    if f in row then row[f] else Undefined
  }

  const TABLE_FIELDS := {Kind, HasRowSecurity, HasForcedRowSecurity}
  const COLUMN_FIELDS := {
    Ordinal, IsNullable, DefaultExpression, Generated, IdentityField, RenderedType, TypeSchema, TypeName,
    TypeKindField, BaseTypeSchema, BaseTypeName, BaseTypeKind
  }
  const CONSTRAINT_FIELDS := {ConstraintType, ConstraintColumns, RefSchema, RefTable, RefColumns, OnUpdate, OnDelete}
  const INDEX_FIELDS := {IsUnique, IsExpression, HasPredicate, IndexColumns}

  predicate NullIn(row: RawRow, fields: set<Field>) {
    forall f <- fields :: Get(row, f) == Null
  }

  function Unit(c: char): CodeUnit
    requires c as int < 0x10000
  {
    c as int
  }

  function Units(s: string): Text
    requires forall c <- s :: c as int < 0x10000
  {
    seq(|s|, i requires 0 <= i < |s| => assert s[i] in s; Unit(s[i]))
  }

  predicate Is(v: Value, s: string)
    requires forall c <- s :: c as int < 0x10000
  {
    v == Str(Units(s))
  }

  predicate NonEmpty(v: Value) {
    v.Str? && v.s != []
  }

  predicate NonEmptyStrings(v: Value) {
    v.Arr? && v.items != [] && forall i | 0 <= i < |v.items| :: NonEmpty(v.items[i])
  }

  function Strings(v: Value): seq<Text>
    requires NonEmptyStrings(v)
  {
    seq(|v.items|, i requires 0 <= i < |v.items| => v.items[i].s)
  }

  // ---------- model ----------

  datatype TypeKind = BaseKind | DomainKind | EnumKind | RangeKind | MultirangeKind | CompositeKind | PseudoKind

  datatype TypeIdentity = TypeIdentity(schema: Text, name: Text, kind: TypeKind)

  datatype GeneratedKind = NotGenerated | StoredGenerated | VirtualGenerated

  datatype IdentityKind = NoIdentity | AlwaysIdentity | ByDefaultIdentity

  datatype Column = Column(
    ordinal: nat, name: Text, nullable: bool, default: Option<Text>, generated: GeneratedKind,
    identity: IdentityKind, renderedType: Text, typ: TypeIdentity, baseType: Option<TypeIdentity>)

  datatype Classification = PrimaryKey | UniqueKey | ForeignKey | Check | Exclusion

  datatype Action = NoAction | Restrict | Cascade | SetNull | SetDefault

  datatype References = References(schema: Text, table: Text, columns: seq<Text>)

  datatype Constraint = Constraint(
    name: Text, classification: Classification, columns: seq<Text>, references: Option<References>,
    onUpdate: Option<Action>, onDelete: Option<Action>)

  datatype IndexClass = ExpressionIndex | PartialIndex | PlainIndex

  datatype Index = Index(
    name: Text, classification: IndexClass, isUnique: bool, isExpression: bool, hasPredicate: bool,
    columns: seq<Option<Text>>)

  datatype TableKind = Regular | Partitioned

  datatype Owned = Owned(name: Text, owner: Text)

  datatype Header = Header(
    schema: Text, name: Text, owner: Text, kind: TableKind, rowSecurity: bool, forced: bool)

  datatype Table = Table(header: Header, columns: seq<Column>, constraints: seq<Constraint>, indexes: seq<Index>)

  datatype Schema = Schema(self: Owned, tables: seq<Table>)

  type Catalogue = seq<Schema>

  datatype Key = Key(schema: Text, table: Text)

  /** A child with the table it belongs to. */
  datatype Located<T> = Located(key: Key, child: T)

  // ---------- one row ----------

  function MapTypeKind(v: Value): Option<TypeKind> {
    if Is(v, "b") then Some(BaseKind)
    else if Is(v, "d") then Some(DomainKind)
    else if Is(v, "e") then Some(EnumKind)
    else if Is(v, "r") then Some(RangeKind)
    else if Is(v, "m") then Some(MultirangeKind)
    else if Is(v, "c") then Some(CompositeKind)
    else if Is(v, "p") then Some(PseudoKind)
    else None
  }

  function MapType(schema: Value, name: Value, kind: Value): Option<TypeIdentity> {
    if NonEmpty(schema) && NonEmpty(name) && MapTypeKind(kind).Some?
    then Some(TypeIdentity(schema.s, name.s, MapTypeKind(kind).value))
    else None
  }

  function MapGenerated(v: Value): Option<GeneratedKind> {
    if Is(v, "") then Some(NotGenerated)
    else if Is(v, "s") then Some(StoredGenerated)
    else if Is(v, "v") then Some(VirtualGenerated)
    else None
  }

  function MapIdentity(v: Value): Option<IdentityKind> {
    if Is(v, "") then Some(NoIdentity)
    else if Is(v, "a") then Some(AlwaysIdentity)
    else if Is(v, "d") then Some(ByDefaultIdentity)
    else None
  }

  predicate PositiveInteger(v: Value) {
    v.Num? && v.n.Floor as real == v.n && v.n >= 1.0
  }

  function MapDefault(generated: GeneratedKind, v: Value): Option<Option<Text>> {
    if !generated.NotGenerated? || v == Null then Some(None)
    else if NonEmpty(v) then Some(Some(v.s))
    else None
  }

  /** A base type is read exactly for a domain, and must be absent otherwise. */
  function MapBaseType(typ: TypeIdentity, schema: Value, name: Value, kind: Value): Option<Option<TypeIdentity>> {
    if typ.kind.DomainKind? then
      var base := MapType(schema, name, kind);
      if base.Some? then Some(base) else None
    else if schema == Null && name == Null && kind == Null then Some(None)
    else None
  }

  function MapColumn(row: RawRow): Option<Column> {
    var generated := MapGenerated(Get(row, Generated));
    var typ := MapType(Get(row, TypeSchema), Get(row, TypeName), Get(row, TypeKindField));
    var identity := MapIdentity(Get(row, IdentityField));
    if generated.None? || typ.None? || identity.None? then None
    else
      var default := MapDefault(generated.value, Get(row, DefaultExpression));
      var base := MapBaseType(typ.value, Get(row, BaseTypeSchema), Get(row, BaseTypeName), Get(row, BaseTypeKind));
      if default.Some? && base.Some? && PositiveInteger(Get(row, Ordinal)) && NonEmpty(Get(row, Name))
         && Get(row, IsNullable).Bool? && NonEmpty(Get(row, RenderedType))
      then
        Some(Column(Get(row, Ordinal).n.Floor, Get(row, Name).s, Get(row, IsNullable).b, default.value,
                    generated.value, identity.value, Get(row, RenderedType).s, typ.value, base.value))
      else None
  }

  function MapClassification(v: Value): Option<Classification> {
    if Is(v, "p") then Some(PrimaryKey)
    else if Is(v, "u") then Some(UniqueKey)
    else if Is(v, "f") then Some(ForeignKey)
    else if Is(v, "c") then Some(Check)
    else if Is(v, "x") then Some(Exclusion)
    else None
  }

  function MapAction(v: Value): Option<Action> {
    if Is(v, "a") then Some(NoAction)
    else if Is(v, "r") then Some(Restrict)
    else if Is(v, "c") then Some(Cascade)
    else if Is(v, "n") then Some(SetNull)
    else if Is(v, "d") then Some(SetDefault)
    else None
  }

  const REFERENCE_FIELDS := {RefSchema, RefTable, RefColumns, OnUpdate, OnDelete}

  function MapConstraint(row: RawRow): Option<Constraint> {
    var classification := MapClassification(Get(row, ConstraintType));
    var onUpdate, onDelete := MapAction(Get(row, OnUpdate)), MapAction(Get(row, OnDelete));
    if classification.None? || !NonEmpty(Get(row, Name)) then None
    else if classification.value.Check? then
      if Get(row, ConstraintColumns) == Null && NullIn(row, REFERENCE_FIELDS)
      then Some(Constraint(Get(row, Name).s, Check, [], None, None, None)) else None
    else if !NonEmptyStrings(Get(row, ConstraintColumns)) then None
    else if classification.value.ForeignKey? then
      if NonEmpty(Get(row, RefSchema)) && NonEmpty(Get(row, RefTable)) && NonEmptyStrings(Get(row, RefColumns))
         && onUpdate.Some? && onDelete.Some?
      then
        Some(Constraint(Get(row, Name).s, ForeignKey, Strings(Get(row, ConstraintColumns)),
                        Some(References(Get(row, RefSchema).s, Get(row, RefTable).s, Strings(Get(row, RefColumns)))),
                        onUpdate, onDelete))
      else None
    else if NullIn(row, REFERENCE_FIELDS)
    then Some(Constraint(Get(row, Name).s, classification.value, Strings(Get(row, ConstraintColumns)), None, None, None))
    else None
  }

  predicate IndexColumnsOk(v: Value, isExpression: bool) {
    && v.Arr? && v.items != []
    && forall i | 0 <= i < |v.items| :: NonEmpty(v.items[i]) || (isExpression && v.items[i] == Null)
  }

  function MapIndex(row: RawRow): Option<Index> {
    if Get(row, IsUnique).Bool? && Get(row, IsExpression).Bool? && Get(row, HasPredicate).Bool?
       && IndexColumnsOk(Get(row, IndexColumns), Get(row, IsExpression).b) && NonEmpty(Get(row, Name))
    then
      var items := Get(row, IndexColumns).items;
      Some(Index(Get(row, Name).s,
                 if Get(row, IsExpression).b then ExpressionIndex
                 else if Get(row, HasPredicate).b then PartialIndex else PlainIndex,
                 Get(row, IsUnique).b, Get(row, IsExpression).b, Get(row, HasPredicate).b,
                 seq(|items|, i requires 0 <= i < |items| => if items[i].Str? then Some(items[i].s) else None)))
    else None
  }

  /** What a mapped child always satisfies. */
  lemma MappedShapes(row: RawRow)
    ensures var c := MapColumn(row); c.Some? ==>
              && c.value.ordinal >= 1
              && (c.value.baseType.Some? <==> c.value.typ.kind.DomainKind?)
              && (c.value.default.Some? ==> c.value.generated.NotGenerated?)
    ensures var k := MapConstraint(row); k.Some? ==>
              && (k.value.references.Some? <==> k.value.classification.ForeignKey?)
              && (k.value.onUpdate.Some? <==> k.value.classification.ForeignKey?)
              && (k.value.onDelete.Some? <==> k.value.classification.ForeignKey?)
              && (k.value.columns == [] <==> k.value.classification.Check?)
    ensures var x := MapIndex(row); x.Some? ==>
              && x.value.columns != []
              && (None in x.value.columns ==> x.value.classification.ExpressionIndex?)
              && (x.value.classification.PlainIndex? <==> !x.value.isExpression && !x.value.hasPredicate)
  {
  }

  function MapOwned(row: RawRow): Option<Owned> {
    if Is(Get(row, RowKind), "schema")
       && NullIn(row, {TableName, Name} + TABLE_FIELDS + COLUMN_FIELDS + CONSTRAINT_FIELDS + INDEX_FIELDS)
       && NonEmpty(Get(row, SchemaName)) && NonEmpty(Get(row, Owner))
    then Some(Owned(Get(row, SchemaName).s, Get(row, Owner).s)) else None
  }

  function MapTableKind(v: Value): Option<TableKind> {
    if Is(v, "regular") then Some(Regular) else if Is(v, "partitioned") then Some(Partitioned) else None
  }

  function MapHeader(row: RawRow): Option<Header> {
    var kind := MapTableKind(Get(row, Kind));
    if Is(Get(row, RowKind), "table")
       && NullIn(row, {Name} + COLUMN_FIELDS + CONSTRAINT_FIELDS + INDEX_FIELDS)
       && NonEmpty(Get(row, SchemaName)) && NonEmpty(Get(row, TableName)) && NonEmpty(Get(row, Owner))
       && kind.Some? && Get(row, HasRowSecurity).Bool? && Get(row, HasForcedRowSecurity).Bool?
    then
      Some(Header(Get(row, SchemaName).s, Get(row, TableName).s, Get(row, Owner).s, kind.value,
                  Get(row, HasRowSecurity).b, Get(row, HasForcedRowSecurity).b))
    else None
  }

  function MapChild<T>(row: RawRow, kind: string, foreign: set<Field>, child: RawRow -> Option<T>): Option<Located<T>>
    requires forall c <- kind :: c as int < 0x10000
  {
    if Is(Get(row, RowKind), kind) && NullIn(row, {Owner} + TABLE_FIELDS + foreign)
       && NonEmpty(Get(row, SchemaName)) && NonEmpty(Get(row, TableName)) && child(row).Some?
    then Some(Located(Key(Get(row, SchemaName).s, Get(row, TableName).s), child(row).value)) else None
  }

  function LocateColumn(row: RawRow): Option<Located<Column>> {
    MapChild(row, "column", CONSTRAINT_FIELDS + INDEX_FIELDS, MapColumn)
  }

  function LocateConstraint(row: RawRow): Option<Located<Constraint>> {
    MapChild(row, "constraint", COLUMN_FIELDS + INDEX_FIELDS, MapConstraint)
  }

  function LocateIndex(row: RawRow): Option<Located<Index>> {
    MapChild(row, "index", COLUMN_FIELDS + CONSTRAINT_FIELDS, MapIndex)
  }

  // ---------- what is accepted ----------

  datatype Rows = Rows(
    schemas: seq<RawRow>, tables: seq<RawRow>, columns: seq<RawRow>, constraints: seq<RawRow>, indexes: seq<RawRow>)

  ghost predicate Pairwise<T>(s: seq<T>, apart: (T, T) -> bool) {
    forall i, j | 0 <= i < j < |s| :: apart(s[i], s[j])
  }

  /** Some row says this. */
  ghost predicate Says<T(!new)>(rows: seq<RawRow>, parse: RawRow -> Option<T>, x: T) {
    exists row :: row in rows && parse(row) == Some(x)
  }

  ghost predicate SchemaPresent(rows: seq<RawRow>, name: Text) {
    exists x: Owned :: Says(rows, MapOwned, x) && x.name == name
  }

  ghost predicate TablePresent(rows: seq<RawRow>, key: Key) {
    exists x: Header :: Says(rows, MapHeader, x) && KeyOf(x) == key
  }

  function KeyOf(h: Header): Key {
    Key(h.schema, h.name)
  }

  predicate ColumnsApart(a: Column, b: Column) {
    a.ordinal != b.ordinal && a.name != b.name
  }

  predicate ConstraintsApart(a: Constraint, b: Constraint) {
    a.name != b.name
  }

  predicate IndexesApart(a: Index, b: Index) {
    a.name != b.name
  }

  predicate OwnedApart(a: Owned, b: Owned) {
    a.name != b.name
  }

  predicate HeadersApart(a: Header, b: Header) {
    KeyOf(a) != KeyOf(b)
  }

  /** Children are compared within their table. */
  function Within<T>(apart: (T, T) -> bool): (Located<T>, Located<T>) -> bool {
    (x: Located<T>, y: Located<T>) => x.key == y.key ==> apart(x.child, y.child)
  }

  function RowsApart<T>(parse: RawRow -> Option<T>, apart: (T, T) -> bool): (RawRow, RawRow) -> bool {
    (r: RawRow, r': RawRow) => parse(r).Some? && parse(r').Some? ==> apart(parse(r).value, parse(r').value)
  }

  ghost function InSchema(rows: seq<RawRow>): Header -> bool {
    (h: Header) => SchemaPresent(rows, h.schema)
  }

  ghost function InTable<T>(rows: seq<RawRow>): Located<T> -> bool {
    (x: Located<T>) => TablePresent(rows, x.key)
  }

  /** Every row parses and has its place, and the rows are pairwise apart. */
  ghost predicate RowsOk<T>(rows: seq<RawRow>, parse: RawRow -> Option<T>, placed: T -> bool, apart: (T, T) -> bool) {
    && (forall row <- rows :: parse(row).Some? && placed(parse(row).value))
    && Pairwise(rows, RowsApart(parse, apart))
  }

  ghost predicate SchemasOk(rows: seq<RawRow>) {
    RowsOk(rows, MapOwned, (x: Owned) => true, OwnedApart)
  }

  ghost predicate TablesOk(rows: seq<RawRow>, schemas: seq<RawRow>) {
    RowsOk(rows, MapHeader, InSchema(schemas), HeadersApart)
  }

  ghost predicate ChildrenOk<T>(rows: seq<RawRow>, tables: seq<RawRow>, parse: RawRow -> Option<Located<T>>, apart: (T, T) -> bool) {
    RowsOk(rows, parse, InTable(tables), Within(apart))
  }

  /** Every row is well-formed and has its parent, and no two rows clash. */
  ghost predicate Acceptable(rows: Rows) {
    && SchemasOk(rows.schemas) && TablesOk(rows.tables, rows.schemas)
    && ChildrenOk(rows.columns, rows.tables, LocateColumn, ColumnsApart)
    && ChildrenOk(rows.constraints, rows.tables, LocateConstraint, ConstraintsApart)
    && ChildrenOk(rows.indexes, rows.tables, LocateIndex, IndexesApart)
  }

  // ---------- what the result is ----------

  predicate SchemaBefore(a: Schema, b: Schema) {
    Less(a.self.name, b.self.name)
  }

  predicate TableBefore(a: Table, b: Table) {
    Less(a.header.name, b.header.name)
  }

  predicate ColumnBefore(a: Column, b: Column) {
    a.ordinal < b.ordinal
  }

  predicate ConstraintBefore(a: Constraint, b: Constraint) {
    Less(a.name, b.name)
  }

  predicate IndexBefore(a: Index, b: Index) {
    Less(a.name, b.name)
  }

  /** The children of one table, all of them and nothing else, in order. */
  ghost predicate Holds<T(!new)>(children: seq<T>, key: Key, rows: seq<RawRow>, parse: RawRow -> Option<Located<T>>, before: (T, T) -> bool) {
    Ascending(children, before) && forall x :: x in children <==> Says(rows, parse, Located(key, x))
  }

  ghost predicate TableHolds(t: Table, rows: Rows) {
    && Holds(t.columns, KeyOf(t.header), rows.columns, LocateColumn, ColumnBefore)
    && Holds(t.constraints, KeyOf(t.header), rows.constraints, LocateConstraint, ConstraintBefore)
    && Holds(t.indexes, KeyOf(t.header), rows.indexes, LocateIndex, IndexBefore)
  }

  function Headers(tables: seq<Table>): seq<Header> {
    seq(|tables|, i requires 0 <= i < |tables| => tables[i].header)
  }

  function Selves(c: Catalogue): seq<Owned> {
    seq(|c|, i requires 0 <= i < |c| => c[i].self)
  }

  ghost predicate SchemaHolds(s: Schema, rows: Rows) {
    && Ascending(s.tables, TableBefore)
    && (forall h :: h in Headers(s.tables) <==> Says(rows.tables, MapHeader, h) && h.schema == s.self.name)
    && forall t <- s.tables :: TableHolds(t, rows)
  }

  /** Every level ascends strictly, and holds exactly what the rows say. */
  ghost predicate Describes(c: Catalogue, rows: Rows) {
    && Ascending(c, SchemaBefore)
    && (forall x :: x in Selves(c) <==> Says(rows.schemas, MapOwned, x))
    && forall s <- c :: SchemaHolds(s, rows)
  }

  // ---------- the result is unique ----------

  lemma OrdersAsymmetric()
    ensures Asymmetric(ColumnBefore) && Asymmetric(ConstraintBefore) && Asymmetric(IndexBefore)
    ensures Asymmetric(HeaderBefore) && Asymmetric(OwnedBefore)
  {
    forall a: Text, b: Text ensures Less(a, b) ==> !Less(b, a) {
      LessTrichotomy(a, b);
    }
  }

  predicate HeaderBefore(a: Header, b: Header) {
    Less(a.name, b.name)
  }

  predicate OwnedBefore(a: Owned, b: Owned) {
    Less(a.name, b.name)
  }

  lemma TableUnique(t: Table, t': Table, rows: Rows)
    requires TableHolds(t, rows) && TableHolds(t', rows) && t.header == t'.header
    ensures t == t'
  {
    OrdersAsymmetric();
    AscendingUnique(t.columns, t'.columns, ColumnBefore);
    AscendingUnique(t.constraints, t'.constraints, ConstraintBefore);
    AscendingUnique(t.indexes, t'.indexes, IndexBefore);
  }

  lemma SchemaUnique(s: Schema, s': Schema, rows: Rows)
    requires SchemaHolds(s, rows) && SchemaHolds(s', rows) && s.self == s'.self
    ensures s == s'
  {
    OrdersAsymmetric();
    AscendingUnique(Headers(s.tables), Headers(s'.tables), HeaderBefore);
    forall i | 0 <= i < |s.tables| ensures s.tables[i] == s'.tables[i] {
      assert Headers(s.tables)[i] == Headers(s'.tables)[i];
      TableUnique(s.tables[i], s'.tables[i], rows);
    }
    assert |Headers(s.tables)| == |Headers(s'.tables)|;
    assert s.tables == s'.tables;
  }

  /** The rows leave no choice: they describe at most one catalogue. */
  lemma CatalogueUnique(c: Catalogue, c': Catalogue, rows: Rows)
    requires Describes(c, rows) && Describes(c', rows)
    ensures c == c'
  {
    OrdersAsymmetric();
    AscendingUnique(Selves(c), Selves(c'), OwnedBefore);
    forall i | 0 <= i < |c| ensures c[i] == c'[i] {
      assert Selves(c)[i] == Selves(c')[i];
      SchemaUnique(c[i], c'[i], rows);
    }
    assert |Selves(c)| == |Selves(c')|;
  }

  // ---------- row order does not matter ----------

  ghost predicate Permuted(rows: Rows, rows': Rows) {
    && multiset(rows.schemas) == multiset(rows'.schemas)
    && multiset(rows.tables) == multiset(rows'.tables)
    && multiset(rows.columns) == multiset(rows'.columns)
    && multiset(rows.constraints) == multiset(rows'.constraints)
    && multiset(rows.indexes) == multiset(rows'.indexes)
  }

  lemma PairwisePermutes<T>(s: seq<T>, s': seq<T>, apart: (T, T) -> bool)
    requires multiset(s) == multiset(s') && Pairwise(s, apart)
    requires forall x, y | x in s && y in s :: apart(x, y) ==> apart(y, x)
    ensures Pairwise(s', apart)
  {
    SameMembers(s, s');
    forall i, j | 0 <= i < j < |s'| ensures apart(s'[i], s'[j]) {
      var x, y := s'[i], s'[j];
      assert x in s && y in s;
      if x == y {
        TwicePresent(s', i, j);
        if !(exists k, l :: 0 <= k < l < |s| && s[k] == x && s[l] == x) {
          OncePresent(s, x);
          assert false;
        }
      }
    }
  }

  lemma SaysPermutes<T(!new)>(rows: seq<RawRow>, rows': seq<RawRow>, parse: RawRow -> Option<T>)
    requires multiset(rows) == multiset(rows')
    ensures forall x :: Says(rows, parse, x) <==> Says(rows', parse, x)
  {
    SameMembers(rows, rows');
  }

  lemma RowsPermute<T(!new)>(rows: seq<RawRow>, rows': seq<RawRow>, parse: RawRow -> Option<T>,
                             placed: T -> bool, placed': T -> bool, apart: (T, T) -> bool)
    requires multiset(rows) == multiset(rows') && forall x :: placed(x) ==> placed'(x)
    requires forall x, y :: apart(x, y) ==> apart(y, x)
    requires RowsOk(rows, parse, placed, apart)
    ensures RowsOk(rows', parse, placed', apart)
  {
    SameMembers(rows, rows');
    PairwisePermutes(rows, rows', RowsApart(parse, apart));
  }

  lemma PlacesPermute<T>(rows: Rows, rows': Rows)
    requires Permuted(rows, rows')
    ensures forall h :: InSchema(rows.schemas)(h) ==> InSchema(rows'.schemas)(h)
    ensures forall x :: InTable<T>(rows.tables)(x) ==> InTable<T>(rows'.tables)(x)
  {
    SaysPermutes(rows.schemas, rows'.schemas, MapOwned);
    SaysPermutes(rows.tables, rows'.tables, MapHeader);
  }

  lemma WithinSymmetric<T(!new)>(apart: (T, T) -> bool)
    requires forall x, y :: apart(x, y) ==> apart(y, x)
    ensures forall x, y :: Within(apart)(x, y) ==> Within(apart)(y, x)
  {
    forall x: Located<T>, y: Located<T> | Within(apart)(x, y) ensures Within(apart)(y, x) {
      if x.key == y.key {
        assert apart(x.child, y.child);
      }
    }
  }

  lemma AcceptablePermutes(rows: Rows, rows': Rows)
    requires Permuted(rows, rows') && Acceptable(rows)
    ensures Acceptable(rows')
  {
    RowsPermute(rows.schemas, rows'.schemas, MapOwned, (x: Owned) => true, (x: Owned) => true, OwnedApart);
    PlacesPermute<Column>(rows, rows');
    PlacesPermute<Constraint>(rows, rows');
    PlacesPermute<Index>(rows, rows');
    RowsPermute(rows.tables, rows'.tables, MapHeader, InSchema(rows.schemas), InSchema(rows'.schemas), HeadersApart);
    WithinSymmetric(ColumnsApart);
    WithinSymmetric(ConstraintsApart);
    WithinSymmetric(IndexesApart);
    RowsPermute(rows.columns, rows'.columns, LocateColumn,
                InTable(rows.tables), InTable(rows'.tables), Within(ColumnsApart));
    RowsPermute(rows.constraints, rows'.constraints, LocateConstraint,
                InTable(rows.tables), InTable(rows'.tables), Within(ConstraintsApart));
    RowsPermute(rows.indexes, rows'.indexes, LocateIndex,
                InTable(rows.tables), InTable(rows'.tables), Within(IndexesApart));
  }

  lemma DescribesPermutes(c: Catalogue, rows: Rows, rows': Rows)
    requires Permuted(rows, rows') && Describes(c, rows)
    ensures Describes(c, rows')
  {
    SaysPermutes(rows.schemas, rows'.schemas, MapOwned);
    SaysPermutes(rows.tables, rows'.tables, MapHeader);
    forall s <- c ensures SchemaHolds(s, rows') {
      assert SchemaHolds(s, rows);
      forall t <- s.tables ensures TableHolds(t, rows') {
        assert TableHolds(t, rows);
        SaysPermutes(rows.columns, rows'.columns, LocateColumn);
        SaysPermutes(rows.constraints, rows'.constraints, LocateConstraint);
        SaysPermutes(rows.indexes, rows'.indexes, LocateIndex);
      }
    }
  }

  /**
   Order independence: permuting any of the five row lists changes neither whether a catalogue
   is read nor which one.
  */
  lemma OrderIndependent(rows: Rows, rows': Rows, c: Catalogue, c': Catalogue)
    requires Permuted(rows, rows')
    ensures Acceptable(rows) <==> Acceptable(rows')
    ensures Describes(c, rows) && Describes(c', rows') ==> c == c'
  {
    if Acceptable(rows) {
      AcceptablePermutes(rows, rows');
    }
    if Acceptable(rows') {
      AcceptablePermutes(rows', rows);
    }
    if Describes(c, rows) && Describes(c', rows') {
      DescribesPermutes(c, rows, rows');
      CatalogueUnique(c, c', rows');
    }
  }

  // ---------- nothing is lost ----------

  /** A position in a catalogue: a schema, a table in it, a child of that table. */
  datatype Place = Place(schema: nat, table: nat, child: nat)

  ghost predicate Shows<T>(c: Catalogue, p: Place, children: Table -> seq<T>, x: Located<T>) {
    && p.schema < |c| && p.table < |c[p.schema].tables|
    && p.child < |children(c[p.schema].tables[p.table])|
    && Located(KeyOf(c[p.schema].tables[p.table].header), children(c[p.schema].tables[p.table])[p.child]) == x
  }

  ghost predicate Shown<T>(c: Catalogue, children: Table -> seq<T>, x: Located<T>) {
    exists p :: Shows(c, p, children, x)
  }

  lemma TablePlaceUnique(c: Catalogue, rows: Rows, i: nat, j: nat, i': nat, j': nat)
    requires Describes(c, rows)
    requires i < |c| && j < |c[i].tables| && i' < |c| && j' < |c[i'].tables|
    requires KeyOf(c[i].tables[j].header) == KeyOf(c[i'].tables[j'].header)
    ensures i == i' && j == j'
  {
    OrdersAsymmetric();
    assert SchemaHolds(c[i], rows) && SchemaHolds(c[i'], rows);
    assert Headers(c[i].tables)[j] in Headers(c[i].tables) && Headers(c[i'].tables)[j'] in Headers(c[i'].tables);
    assert c[i].self.name == c[i'].self.name;
    LessTrichotomy(c[i].self.name, c[i].self.name);
    SamePosition(c, SchemaBefore, i, i');
    LessTrichotomy(c[i].tables[j].header.name, c[i].tables[j].header.name);
    SamePosition(c[i].tables, TableBefore, j, j');
  }

  lemma SamePosition<T>(s: seq<T>, before: (T, T) -> bool, i: nat, j: nat)
    requires Ascending(s, before) && i < |s| && j < |s|
    requires !before(s[i], s[j]) && !before(s[j], s[i])
    ensures i == j
  {
  }

  lemma PlacedWhenSaid<T(!new)>(rows: seq<RawRow>, parse: RawRow -> Option<T>, placed: T -> bool, apart: (T, T) -> bool, x: T)
    requires RowsOk(rows, parse, placed, apart) && Says(rows, parse, x)
    ensures placed(x)
  {
  }

  lemma SchemaPlaceExists(c: Catalogue, rows: Rows, h: Header) returns (i: nat)
    requires Describes(c, rows) && SchemaPresent(rows.schemas, h.schema)
    ensures i < |c| && c[i].self.name == h.schema
  {
    var x: Owned :| Says(rows.schemas, MapOwned, x) && x.name == h.schema;
    assert x in Selves(c);
    i :| 0 <= i < |c| && Selves(c)[i] == x;
  }

  lemma HeaderPlaceExists(s: Schema, rows: Rows, h: Header) returns (j: nat)
    requires SchemaHolds(s, rows) && Says(rows.tables, MapHeader, h) && h.schema == s.self.name
    ensures j < |s.tables| && s.tables[j].header == h
  {
    assert h in Headers(s.tables);
    j :| 0 <= j < |s.tables| && Headers(s.tables)[j] == h;
  }

  lemma TablePlaceExists(c: Catalogue, rows: Rows, key: Key) returns (i: nat, j: nat)
    requires Describes(c, rows) && TablesOk(rows.tables, rows.schemas) && TablePresent(rows.tables, key)
    ensures i < |c| && j < |c[i].tables| && KeyOf(c[i].tables[j].header) == key
  {
    var h: Header :| Says(rows.tables, MapHeader, h) && KeyOf(h) == key;
    PlacedWhenSaid(rows.tables, MapHeader, InSchema(rows.schemas), HeadersApart, h);
    i := SchemaPlaceExists(c, rows, h);
    j := HeaderPlaceExists(c[i], rows, h);
  }

  ghost predicate EveryTableHolds<T(!new)>(
    c: Catalogue, list: seq<RawRow>, parse: RawRow -> Option<Located<T>>, before: (T, T) -> bool, children: Table -> seq<T>)
  {
    forall i, j | 0 <= i < |c| && 0 <= j < |c[i].tables| ::
      Holds(children(c[i].tables[j]), KeyOf(c[i].tables[j].header), list, parse, before)
  }

  ghost predicate HasPlace<P(!new), T>(shows: (P, T) -> bool, x: T) {
    exists p :: shows(p, x)
  }

  /** Places of some kind and rows correspond one to one. */
  ghost predicate OneToOne<P(!new), T(!new)>(list: seq<RawRow>, parse: RawRow -> Option<T>, shows: (P, T) -> bool) {
    && (forall i | 0 <= i < |list| :: parse(list[i]).Some? && HasPlace(shows, parse(list[i]).value))
    && (forall p, p', x :: shows(p, x) && shows(p', x) ==> p == p')
    && (forall p, x :: shows(p, x) ==> Says(list, parse, x))
    && (forall i, j | 0 <= i < j < |list| :: parse(list[i]) != parse(list[j]))
  }

  ghost function ChildPlaces<T>(c: Catalogue, children: Table -> seq<T>): (Place, Located<T>) -> bool {
    (p: Place, x: Located<T>) => Shows(c, p, children, x)
  }

  datatype SchemaPlace = SchemaPlace(schema: nat)

  ghost function SchemaPlaces(c: Catalogue): (SchemaPlace, Owned) -> bool {
    (p: SchemaPlace, x: Owned) => p.schema < |c| && c[p.schema].self == x
  }

  datatype TablePlace = TablePlace(schema: nat, table: nat)

  ghost function TablePlaces(c: Catalogue): (TablePlace, Header) -> bool {
    (p: TablePlace, x: Header) =>
      p.schema < |c| && p.table < |c[p.schema].tables| && c[p.schema].tables[p.table].header == x
  }

  lemma RowsDiffer<T(!new)>(rows: seq<RawRow>, parse: RawRow -> Option<T>, placed: T -> bool, apart: (T, T) -> bool)
    requires RowsOk(rows, parse, placed, apart) && forall x :: !apart(x, x)
    ensures forall i, j | 0 <= i < j < |rows| :: parse(rows[i]) != parse(rows[j])
  {
    forall i, j | 0 <= i < j < |rows| ensures parse(rows[i]) != parse(rows[j]) {
      assert RowsApart(parse, apart)(rows[i], rows[j]);
      assert rows[i] in rows;
    }
  }

  lemma RowSays<T(!new)>(rows: seq<RawRow>, parse: RawRow -> Option<T>, placed: T -> bool, apart: (T, T) -> bool)
    requires RowsOk(rows, parse, placed, apart)
    ensures forall i | 0 <= i < |rows| ::
              parse(rows[i]).Some? && Says(rows, parse, parse(rows[i]).value) && placed(parse(rows[i]).value)
  {
    forall i | 0 <= i < |rows|
      ensures parse(rows[i]).Some? && Says(rows, parse, parse(rows[i]).value) && placed(parse(rows[i]).value)
    {
      assert rows[i] in rows;
    }
  }

  lemma SchemasOnce(c: Catalogue, rows: seq<RawRow>, parse: RawRow -> Option<Owned>, anywhere: Owned -> bool)
    requires RowsOk(rows, parse, anywhere, OwnedApart)
    requires Ascending(c, SchemaBefore) && forall x :: x in Selves(c) <==> Says(rows, parse, x)
    ensures OneToOne(rows, parse, SchemaPlaces(c))
  {
    var shows := SchemaPlaces(c);
    RowSays(rows, parse, anywhere, OwnedApart);
    RowsDiffer(rows, parse, anywhere, OwnedApart);
    forall i | 0 <= i < |rows| ensures HasPlace(shows, parse(rows[i]).value) {
      var x := parse(rows[i]).value;
      assert x in Selves(c);
      var k :| 0 <= k < |c| && Selves(c)[k] == x;
      assert shows(SchemaPlace(k), x);
    }
    forall p, p', x | shows(p, x) && shows(p', x) ensures p == p' {
      LessTrichotomy(x.name, x.name);
      SamePosition(c, SchemaBefore, p.schema, p'.schema);
    }
    forall p, x | shows(p, x) ensures Says(rows, parse, x) {
      assert Selves(c)[p.schema] == x;
    }
  }

  lemma TablesOnce(c: Catalogue, rows: Rows, parse: RawRow -> Option<Header>)
    requires parse == MapHeader && Describes(c, rows) && TablesOk(rows.tables, rows.schemas)
    ensures OneToOne(rows.tables, parse, TablePlaces(c))
  {
    var shows := TablePlaces(c);
    RowSays(rows.tables, parse, InSchema(rows.schemas), HeadersApart);
    RowsDiffer(rows.tables, parse, InSchema(rows.schemas), HeadersApart);
    forall i | 0 <= i < |rows.tables| ensures HasPlace(shows, parse(rows.tables[i]).value) {
      var h := parse(rows.tables[i]).value;
      var k := SchemaPlaceExists(c, rows, h);
      assert SchemaHolds(c[k], rows);
      var j := HeaderPlaceExists(c[k], rows, h);
      assert shows(TablePlace(k, j), h);
    }
    forall p, p', x | shows(p, x) && shows(p', x) ensures p == p' {
      TablePlaceUnique(c, rows, p.schema, p.table, p'.schema, p'.table);
    }
    forall p, x | shows(p, x) ensures Says(rows.tables, parse, x) {
      assert SchemaHolds(c[p.schema], rows) && Headers(c[p.schema].tables)[p.table] == x;
    }
  }

  lemma RowsOnce<T(!new)>(c: Catalogue, rows: Rows, list: seq<RawRow>, parse: RawRow -> Option<Located<T>>,
                          apart: (T, T) -> bool, before: (T, T) -> bool, children: Table -> seq<T>)
    requires Describes(c, rows) && TablesOk(rows.tables, rows.schemas)
    requires ChildrenOk(list, rows.tables, parse, apart) && EveryTableHolds(c, list, parse, before, children)
    requires Asymmetric(before) && forall x :: !apart(x, x)
    ensures OneToOne(list, parse, ChildPlaces(c, children))
  {
    var shows := ChildPlaces(c, children);
    forall i | 0 <= i < |list| ensures parse(list[i]).Some? && HasPlace(shows, parse(list[i]).value) {
      assert list[i] in list && InTable(rows.tables)(parse(list[i]).value);
      RowShown(c, rows, list, parse, before, children, list[i], parse(list[i]).value);
      var p :| Shows(c, p, children, parse(list[i]).value);
      assert shows(p, parse(list[i]).value);
    }
    forall p, p', x | shows(p, x) && shows(p', x) ensures p == p' {
      ShownOnce(c, rows, list, parse, before, children, p, p', x);
    }
    forall p, x | shows(p, x) ensures Says(list, parse, x) {
      ShownIsSaid(c, list, parse, before, children, p, x);
    }
    RowsDiffer(list, parse, InTable(rows.tables), Within(apart));
  }

  lemma RowShown<T(!new)>(c: Catalogue, rows: Rows, list: seq<RawRow>, parse: RawRow -> Option<Located<T>>,
                          before: (T, T) -> bool, children: Table -> seq<T>, row: RawRow, x: Located<T>)
    requires Describes(c, rows) && TablesOk(rows.tables, rows.schemas)
    requires EveryTableHolds(c, list, parse, before, children)
    requires row in list && parse(row) == Some(x) && TablePresent(rows.tables, x.key)
    ensures Shown(c, children, x)
  {
    var s, t := TablePlaceExists(c, rows, x.key);
    assert Says(list, parse, Located(x.key, x.child));
    assert Holds(children(c[s].tables[t]), x.key, list, parse, before);
    assert x.child in children(c[s].tables[t]);
    var k :| 0 <= k < |children(c[s].tables[t])| && children(c[s].tables[t])[k] == x.child;
    assert Shows(c, Place(s, t, k), children, x);
  }

  lemma ShownOnce<T(!new)>(c: Catalogue, rows: Rows, list: seq<RawRow>, parse: RawRow -> Option<Located<T>>,
                           before: (T, T) -> bool, children: Table -> seq<T>, p: Place, p': Place, x: Located<T>)
    requires Describes(c, rows) && EveryTableHolds(c, list, parse, before, children) && Asymmetric(before)
    requires Shows(c, p, children, x) && Shows(c, p', children, x)
    ensures p == p'
  {
    TablePlaceUnique(c, rows, p.schema, p.table, p'.schema, p'.table);
    var held := children(c[p.schema].tables[p.table]);
    assert Holds(held, x.key, list, parse, before);
    SamePosition(held, before, p.child, p'.child);
  }

  lemma ShownIsSaid<T(!new)>(c: Catalogue, list: seq<RawRow>, parse: RawRow -> Option<Located<T>>,
                             before: (T, T) -> bool, children: Table -> seq<T>, p: Place, x: Located<T>)
    requires EveryTableHolds(c, list, parse, before, children) && Shows(c, p, children, x)
    ensures Says(list, parse, x)
  {
    assert Holds(children(c[p.schema].tables[p.table]), x.key, list, parse, before);
    assert x.child in children(c[p.schema].tables[p.table]);
  }

  function ColumnsOf(t: Table): seq<Column> {
    t.columns
  }

  function ConstraintsOf(t: Table): seq<Constraint> {
    t.constraints
  }

  function IndexesOf(t: Table): seq<Index> {
    t.indexes
  }

  /** Lossless: every row of every level is at exactly one place, and every place shows one row. */
  lemma Lossless(c: Catalogue, rows: Rows)
    requires Describes(c, rows) && Acceptable(rows)
    ensures OneToOne(rows.schemas, MapOwned, SchemaPlaces(c))
    ensures OneToOne(rows.tables, MapHeader, TablePlaces(c))
    ensures OneToOne(rows.columns, LocateColumn, ChildPlaces(c, ColumnsOf))
    ensures OneToOne(rows.constraints, LocateConstraint, ChildPlaces(c, ConstraintsOf))
    ensures OneToOne(rows.indexes, LocateIndex, ChildPlaces(c, IndexesOf))
  {
    OrdersAsymmetric();
    forall i, j | 0 <= i < |c| && 0 <= j < |c[i].tables| ensures TableHolds(c[i].tables[j], rows) {
      assert SchemaHolds(c[i], rows);
    }
    SchemasOnce(c, rows.schemas, MapOwned, (x: Owned) => true);
    TablesOnce(c, rows, MapHeader);
    RowsOnce(c, rows, rows.columns, LocateColumn, ColumnsApart, ColumnBefore, ColumnsOf);
    RowsOnce(c, rows, rows.constraints, LocateConstraint, ConstraintsApart, ConstraintBefore, ConstraintsOf);
    RowsOnce(c, rows, rows.indexes, LocateIndex, IndexesApart, IndexBefore, IndexesOf);
  }

  lemma OrdersTransitive()
    ensures Transitive(ColumnBefore) && Transitive(ConstraintBefore) && Transitive(IndexBefore)
    ensures Transitive(TableBefore) && Transitive(SchemaBefore)
    ensures forall a: Text, b: Text :: a != b ==> Less(a, b) || Less(b, a)
  {
    forall a: Text, b: Text, c: Text ensures Less(a, b) && Less(b, c) ==> Less(a, c) {
      if Less(a, b) && Less(b, c) {
        LessTransitive(a, b, c);
      }
    }
    forall a: Text, b: Text ensures a != b ==> Less(a, b) || Less(b, a) {
      LessTrichotomy(a, b);
    }
  }

  // ---------- the mapping ----------

  /** The results so far are what the rows read so far parse to. */
  ghost predicate Parsed<T>(rows: seq<RawRow>, parse: RawRow -> Option<T>, items: seq<T>) {
    |items| == |rows| && forall i | 0 <= i < |rows| :: parse(rows[i]) == Some(items[i])
  }

  lemma ParsedSays<T(!new)>(rows: seq<RawRow>, parse: RawRow -> Option<T>, items: seq<T>)
    requires Parsed(rows, parse, items)
    ensures forall x :: x in items <==> Says(rows, parse, x)
  {
    forall x ensures x in items <==> Says(rows, parse, x) {
      if x in items {
        var i :| 0 <= i < |items| && items[i] == x;
        assert rows[i] in rows;
      }
    }
  }

  lemma PairwiseStep<T>(s: seq<T>, x: T, apart: (T, T) -> bool)
    requires Pairwise(s, apart)
    ensures Pairwise(s + [x], apart) <==> forall i | 0 <= i < |s| :: apart(s[i], x)
  {
    var t := s + [x];
    assert forall i | 0 <= i < |s| :: t[i] == s[i];
    if Pairwise(t, apart) {
      forall i | 0 <= i < |s| ensures apart(s[i], x) {
        assert apart(t[i], t[|s|]);
      }
    }
  }

  /** One more row is right exactly when it parses, has its place and is apart from the items so far. */
  lemma RowStep<T>(rows: seq<RawRow>, row: RawRow, items: seq<T>, parse: RawRow -> Option<T>, placed: T -> bool,
                   apart: (T, T) -> bool)
    requires Parsed(rows, parse, items) && RowsOk(rows, parse, placed, apart)
    ensures RowsOk(rows + [row], parse, placed, apart) <==>
              && parse(row).Some? && placed(parse(row).value)
              && forall i | 0 <= i < |items| :: apart(items[i], parse(row).value)
  {
    PairwiseStep(rows, row, RowsApart(parse, apart));
    assert (rows + [row])[|rows|] == row;
    if parse(row).Some? {
      forall i | 0 <= i < |items|
        ensures apart(items[i], parse(row).value) <==> RowsApart(parse, apart)(rows[i], row)
      {
        assert parse(rows[i]) == Some(items[i]);
      }
    }
  }

  lemma RowsPrefix<T>(rows: seq<RawRow>, i: nat, parse: RawRow -> Option<T>, placed: T -> bool, apart: (T, T) -> bool)
    requires i <= |rows| && !RowsOk(rows[..i], parse, placed, apart)
    ensures !RowsOk(rows, parse, placed, apart)
  {
    if RowsOk(rows, parse, placed, apart) {
      assert forall row :: row in rows[..i] ==> row in rows;
      assert RowsOk(rows[..i], parse, placed, apart);
    }
  }

  /** Refuses rows that do not parse and repeated names. */
  method ReadSchemas(rows: seq<RawRow>, parse: RawRow -> Option<Owned>, ghost anywhere: Owned -> bool)
    returns (r: Option<seq<Owned>>)
    requires forall x :: anywhere(x)
    ensures r.Some? <==> RowsOk(rows, parse, anywhere, OwnedApart)
    ensures r.Some? ==> Parsed(rows, parse, r.value)
  {
    var owners: seq<Owned> := [];
    for i := 0 to |rows|
      invariant Parsed(rows[..i], parse, owners) && RowsOk(rows[..i], parse, anywhere, OwnedApart)
    {
      var x := parse(rows[i]);
      RowStep(rows[..i], rows[i], owners, parse, anywhere, OwnedApart);
      NextPrefix(rows, i);
      if x.None? || exists k | 0 <= k < |owners| :: owners[k].name == x.value.name {
        RowsPrefix(rows, i + 1, parse, anywhere, OwnedApart);
        return None;
      }
      owners := owners + [x.value];
    }
    assert rows[..|rows|] == rows;
    return Some(owners);
  }

  lemma OwnersPlace(schemas: seq<RawRow>, owners: seq<Owned>)
    requires Parsed(schemas, MapOwned, owners)
    ensures forall h: Header :: InSchema(schemas)(h) <==> exists k | 0 <= k < |owners| :: owners[k].name == h.schema
  {
    ParsedSays(schemas, MapOwned, owners);
    forall h: Header
      ensures InSchema(schemas)(h) <==> exists k | 0 <= k < |owners| :: owners[k].name == h.schema
    {
      if InSchema(schemas)(h) {
        var x: Owned :| Says(schemas, MapOwned, x) && x.name == h.schema;
        assert x in owners;
      }
      if k :| 0 <= k < |owners| && owners[k].name == h.schema {
        assert Says(schemas, MapOwned, owners[k]);
      }
    }
  }

  predicate TableFits(headers: seq<Header>, owners: seq<Owned>, x: Option<Header>) {
    && x.Some?
    && (exists k | 0 <= k < |owners| :: owners[k].name == x.value.schema)
    && forall k | 0 <= k < |headers| :: KeyOf(headers[k]) != KeyOf(x.value)
  }

  /** Refuses rows that do not parse, orphans and repeated keys. */
  method ReadTables(rows: seq<RawRow>, owners: seq<Owned>, parse: RawRow -> Option<Header>, ghost placed: Header -> bool)
    returns (r: Option<seq<Header>>)
    requires forall h :: placed(h) <==> exists k | 0 <= k < |owners| :: owners[k].name == h.schema
    ensures r.Some? <==> RowsOk(rows, parse, placed, HeadersApart)
    ensures r.Some? ==> Parsed(rows, parse, r.value)
  {
    var headers: seq<Header> := [];
    NoRowsOk(parse, placed, HeadersApart);
    for i := 0 to |rows|
      invariant Parsed(rows[..i], parse, headers) && RowsOk(rows[..i], parse, placed, HeadersApart)
    {
      var x := parse(rows[i]);
      RowStep(rows[..i], rows[i], headers, parse, placed, HeadersApart);
      NextPrefix(rows, i);
      if !TableFits(headers, owners, x) {
        RowsPrefix(rows, i + 1, parse, placed, HeadersApart);
        return None;
      }
      headers := headers + [x.value];
    }
    assert rows[..|rows|] == rows;
    return Some(headers);
  }

  /** The children read so far, grouped under their tables and apart within each. */
  ghost predicate Grouped<T(!new)>(groups: map<Key, seq<T>>, items: seq<Located<T>>, apart: (T, T) -> bool) {
    forall k <- groups :: Pairwise(groups[k], apart) && forall x :: x in groups[k] <==> Located(k, x) in items
  }

  lemma GroupedStep<T(!new)>(groups: map<Key, seq<T>>, items: seq<Located<T>>, x: Located<T>, apart: (T, T) -> bool)
    requires Grouped(groups, items, apart) && x.key in groups
    ensures (forall i | 0 <= i < |groups[x.key]| :: apart(groups[x.key][i], x.child))
            <==> forall i | 0 <= i < |items| :: Within(apart)(items[i], x)
    ensures (forall i | 0 <= i < |groups[x.key]| :: apart(groups[x.key][i], x.child)) ==>
              Grouped(groups[x.key := groups[x.key] + [x.child]], items + [x], apart)
  {
    var group := groups[x.key];
    if forall i | 0 <= i < |group| :: apart(group[i], x.child) {
      forall i | 0 <= i < |items| ensures Within(apart)(items[i], x) {
        if items[i].key == x.key {
          assert Located(x.key, items[i].child) in items;
          assert items[i].child in group;
        }
      }
      PairwiseStep(group, x.child, apart);
      var groups' := groups[x.key := group + [x.child]];
      forall k <- groups', y ensures y in groups'[k] <==> Located(k, y) in items + [x] {
        assert y in groups[k] <==> Located(k, y) in items;
      }
    }
    if forall i | 0 <= i < |items| :: Within(apart)(items[i], x) {
      forall i | 0 <= i < |group| ensures apart(group[i], x.child) {
        assert group[i] in group && Located(x.key, group[i]) in items;
      }
    }
  }

  ghost predicate GroupsRows<T(!new)>(groups: map<Key, seq<T>>, rows: seq<RawRow>, parse: RawRow -> Option<Located<T>>, apart: (T, T) -> bool) {
    forall k <- groups :: Pairwise(groups[k], apart) && forall x :: x in groups[k] <==> Says(rows, parse, Located(k, x))
  }

  lemma GroupedRows<T(!new)>(groups: map<Key, seq<T>>, rows: seq<RawRow>, items: seq<Located<T>>,
                             parse: RawRow -> Option<Located<T>>, apart: (T, T) -> bool)
    requires Parsed(rows, parse, items) && Grouped(groups, items, apart)
    ensures GroupsRows(groups, rows, parse, apart)
  {
    ParsedSays(rows, parse, items);
  }

  function EmptyGroups<T>(headers: seq<Header>): map<Key, seq<T>> {
    map h <- headers :: KeyOf(h) := []
  }

  ghost predicate KeysPlaced<T>(groups: map<Key, seq<T>>, tables: seq<RawRow>) {
    forall k :: k in groups <==> TablePresent(tables, k)
  }

  lemma HeadersPlace<T(!new)>(tables: seq<RawRow>, headers: seq<Header>, apart: (T, T) -> bool)
    requires Parsed(tables, MapHeader, headers)
    ensures KeysPlaced(EmptyGroups<T>(headers), tables) && Grouped(EmptyGroups<T>(headers), [], apart)
    ensures forall h <- headers :: TablePresent(tables, KeyOf(h))
  {
    ParsedSays(tables, MapHeader, headers);
    forall k ensures k in EmptyGroups<T>(headers) <==> TablePresent(tables, k) {
      assert k in EmptyGroups<T>(headers) <==> exists h :: h in headers && KeyOf(h) == k;
    }
  }

  lemma NoRowsOk<T>(parse: RawRow -> Option<T>, placed: T -> bool, apart: (T, T) -> bool)
    ensures RowsOk([], parse, placed, apart)
  {
  }

  predicate ChildFits<T>(groups: map<Key, seq<T>>, x: Option<Located<T>>, apart: (T, T) -> bool) {
    && x.Some? && x.value.key in groups
    && forall i | 0 <= i < |groups[x.value.key]| :: apart(groups[x.value.key][i], x.value.child)
  }

  /** The state of the grouping loop after some rows. */
  ghost predicate Reading<T(!new)>(groups: map<Key, seq<T>>, items: seq<Located<T>>, rows: seq<RawRow>, tables: seq<RawRow>,
                                   parse: RawRow -> Option<Located<T>>, apart: (T, T) -> bool)
  {
    && Parsed(rows, parse, items) && Grouped(groups, items, apart) && KeysPlaced(groups, tables)
    && ChildrenOk(rows, tables, parse, apart)
  }

  function AddChild<T>(groups: map<Key, seq<T>>, x: Located<T>): map<Key, seq<T>>
    requires x.key in groups
  {
    groups[x.key := groups[x.key] + [x.child]]
  }

  lemma ReadingStart<T(!new)>(headers: seq<Header>, tables: seq<RawRow>, parse: RawRow -> Option<Located<T>>, apart: (T, T) -> bool)
    requires Parsed(tables, MapHeader, headers)
    ensures Reading(EmptyGroups(headers), [], [], tables, parse, apart)
  {
    HeadersPlace(tables, headers, apart);
    NoRowsOk(parse, InTable(tables), Within(apart));
  }

  lemma ReadingStep<T(!new)>(groups: map<Key, seq<T>>, items: seq<Located<T>>, rows: seq<RawRow>, i: nat, tables: seq<RawRow>,
                             parse: RawRow -> Option<Located<T>>, apart: (T, T) -> bool)
    requires i < |rows| && Reading(groups, items, rows[..i], tables, parse, apart)
    ensures !ChildFits(groups, parse(rows[i]), apart) ==> !ChildrenOk(rows, tables, parse, apart)
    ensures ChildFits(groups, parse(rows[i]), apart) ==>
              Reading(AddChild(groups, parse(rows[i]).value), items + [parse(rows[i]).value], rows[..i + 1], tables, parse, apart)
  {
    NextPrefix(rows, i);
    RowStep(rows[..i], rows[i], items, parse, InTable(tables), Within(apart));
    if parse(rows[i]).Some? && parse(rows[i]).value.key in groups {
      GroupedStep(groups, items, parse(rows[i]).value, apart);
    }
    if !ChildFits(groups, parse(rows[i]), apart) {
      RowsPrefix(rows, i + 1, parse, InTable(tables), Within(apart));
    }
  }

  lemma ReadingEnd<T(!new)>(groups: map<Key, seq<T>>, items: seq<Located<T>>, rows: seq<RawRow>, tables: seq<RawRow>,
                            headers: seq<Header>, parse: RawRow -> Option<Located<T>>, apart: (T, T) -> bool)
    requires Parsed(tables, MapHeader, headers) && Reading(groups, items, rows, tables, parse, apart)
    ensures ChildrenOk(rows, tables, parse, apart) && GroupsRows(groups, rows, parse, apart)
    ensures forall h <- headers :: KeyOf(h) in groups
  {
    GroupedRows(groups, rows, items, parse, apart);
    HeadersPlace(tables, headers, apart);
  }

  /** Refuses orphans and clashes, and groups the rest. */
  method ReadChildren<T(!new)>(rows: seq<RawRow>, headers: seq<Header>, parse: RawRow -> Option<Located<T>>,
                               apart: (T, T) -> bool, ghost tables: seq<RawRow>)
    returns (r: Option<map<Key, seq<T>>>)
    requires Parsed(tables, MapHeader, headers)
    ensures r.Some? <==> ChildrenOk(rows, tables, parse, apart)
    ensures r.Some? ==> GroupsRows(r.value, rows, parse, apart) && forall h <- headers :: KeyOf(h) in r.value
  {
    ReadingStart(headers, tables, parse, apart);
    var groups := EmptyGroups<T>(headers);
    ghost var items: seq<Located<T>> := [];
    for i := 0 to |rows|
      invariant Reading(groups, items, rows[..i], tables, parse, apart)
    {
      var x := parse(rows[i]);
      ReadingStep(groups, items, rows, i, tables, parse, apart);
      if !ChildFits(groups, x, apart) {
        return None;
      }
      groups := AddChild(groups, x.value);
      items := items + [x.value];
    }
    assert rows[..|rows|] == rows;
    ReadingEnd(groups, items, rows, tables, headers, parse, apart);
    return Some(groups);
  }

  // ---------- assembling ----------

  lemma SortedHolds<T(!new)>(children: seq<T>, key: Key, rows: seq<RawRow>, parse: RawRow -> Option<Located<T>>,
                             apart: (T, T) -> bool, before: (T, T) -> bool)
    requires Transitive(before) && forall x, y :: apart(x, y) ==> before(x, y) || before(y, x)
    requires Pairwise(children, apart) && forall x :: x in children <==> Says(rows, parse, Located(key, x))
    ensures Holds(SortBy(children, before), key, rows, parse, before)
  {
    SortByAscends(children, before);
  }

  datatype Groups = Groups(
    columns: map<Key, seq<Column>>, constraints: map<Key, seq<Constraint>>, indexes: map<Key, seq<Index>>)

  ghost predicate GroupsOf(g: Groups, rows: Rows) {
    && GroupsRows(g.columns, rows.columns, LocateColumn, ColumnsApart)
    && GroupsRows(g.constraints, rows.constraints, LocateConstraint, ConstraintsApart)
    && GroupsRows(g.indexes, rows.indexes, LocateIndex, IndexesApart)
  }

  predicate HasGroups(g: Groups, h: Header) {
    KeyOf(h) in g.columns && KeyOf(h) in g.constraints && KeyOf(h) in g.indexes
  }

  function AssembleTable(h: Header, g: Groups): Table
    requires HasGroups(g, h)
  {
    Table(h, SortBy(g.columns[KeyOf(h)], ColumnBefore), SortBy(g.constraints[KeyOf(h)], ConstraintBefore),
          SortBy(g.indexes[KeyOf(h)], IndexBefore))
  }

  lemma AssembledHolds(h: Header, g: Groups, rows: Rows)
    requires GroupsOf(g, rows) && HasGroups(g, h)
    ensures TableHolds(AssembleTable(h, g), rows)
  {
    OrdersTransitive();
    SortedHolds(g.columns[KeyOf(h)], KeyOf(h), rows.columns, LocateColumn, ColumnsApart, ColumnBefore);
    SortedHolds(g.constraints[KeyOf(h)], KeyOf(h), rows.constraints, LocateConstraint, ConstraintsApart, ConstraintBefore);
    SortedHolds(g.indexes[KeyOf(h)], KeyOf(h), rows.indexes, LocateIndex, IndexesApart, IndexBefore);
  }

  /** The tables built from some headers of one schema. */
  ghost predicate Built(tables: seq<Table>, headers: seq<Header>, schema: Text, rows: Rows) {
    && (forall t <- tables :: TableHolds(t, rows))
    && (forall h :: h in Headers(tables) <==> h in headers && h.schema == schema)
    && Pairwise(tables, TableNamesApart)
  }

  predicate TableNamesApart(a: Table, b: Table) {
    a.header.name != b.header.name
  }

  lemma BuiltStep(tables: seq<Table>, headers: seq<Header>, schema: Text, rows: Rows, h: Header, g: Groups)
    requires Built(tables, headers, schema, rows) && GroupsOf(g, rows) && HasGroups(g, h)
    requires forall i | 0 <= i < |headers| :: HeadersApart(headers[i], h)
    ensures Built(if h.schema == schema then AddTable(tables, AssembleTable(h, g)) else tables, headers + [h], schema, rows)
  {
    if h.schema == schema {
      AssembledHolds(h, g, rows);
      forall i | 0 <= i < |tables| ensures TableNamesApart(tables[i], AssembleTable(h, g)) {
        assert Headers(tables)[i] in Headers(tables);
      }
      PairwiseStep(tables, AssembleTable(h, g), TableNamesApart);
    }
  }

  lemma BuiltHolds(self: Owned, tables: seq<Table>, headers: seq<Header>, rows: Rows)
    requires Parsed(rows.tables, MapHeader, headers) && Built(tables, headers, self.name, rows)
    ensures SchemaHolds(Schema(self, SortBy(tables, TableBefore)), rows)
  {
    var sorted := SortBy(tables, TableBefore);
    ParsedSays(rows.tables, MapHeader, headers);
    OrdersTransitive();
    forall i, j | 0 <= i < j < |tables| ensures TableBefore(tables[i], tables[j]) || TableBefore(tables[j], tables[i]) {
      assert TableNamesApart(tables[i], tables[j]);
    }
    SortByAscends(tables, TableBefore);
    SameHeaders(sorted, tables);
  }

  method AssembleSchema(self: Owned, headers: seq<Header>, g: Groups, ghost rows: Rows) returns (s: Schema)
    requires Parsed(rows.tables, MapHeader, headers) && Pairwise(headers, HeadersApart)
    requires GroupsOf(g, rows) && forall h <- headers :: HasGroups(g, h)
    ensures s.self == self && SchemaHolds(s, rows)
  {
    var tables: seq<Table> := [];
    for i := 0 to |headers|
      invariant Built(tables, headers[..i], self.name, rows)
    {
      assert headers[i] in headers && HasGroups(g, headers[i]);
      BuiltStep(tables, headers[..i], self.name, rows, headers[i], g);
      NextPrefix(headers, i);
      if headers[i].schema == self.name {
        tables := AddTable(tables, AssembleTable(headers[i], g));
      }
    }
    assert headers[..|headers|] == headers;
    BuiltHolds(self, tables, headers, rows);
    s := Schema(self, SortBy(tables, TableBefore));
  }

  function AddTable(tables: seq<Table>, t: Table): (r: seq<Table>)
    ensures r == tables + [t]
    ensures Headers(r) == Headers(tables) + [t.header]
  {
    tables + [t]
  }

  lemma SameHeaders(a: seq<Table>, b: seq<Table>)
    requires forall t :: t in a <==> t in b
    ensures forall h :: h in Headers(a) <==> h in Headers(b)
  {
    HeadersFrom(a, b);
    HeadersFrom(b, a);
  }

  lemma HeadersFrom(a: seq<Table>, b: seq<Table>)
    requires forall t <- a :: t in b
    ensures forall h :: h in Headers(a) ==> h in Headers(b)
  {
    forall h | h in Headers(a) ensures h in Headers(b) {
      var i :| 0 <= i < |a| && Headers(a)[i] == h;
      assert a[i] in b;
      var j :| 0 <= j < |b| && b[j] == a[i];
      assert Headers(b)[j] == h;
    }
  }

  method Assemble(owners: seq<Owned>, headers: seq<Header>, g: Groups, ghost rows: Rows) returns (c: Catalogue)
    requires Parsed(rows.schemas, MapOwned, owners) && SchemasOk(rows.schemas)
    requires Parsed(rows.tables, MapHeader, headers) && Pairwise(headers, HeadersApart)
    requires GroupsOf(g, rows) && forall h <- headers :: HasGroups(g, h)
    ensures Describes(c, rows)
  {
    var schemas: seq<Schema> := [];
    for i := 0 to |owners|
      invariant |schemas| == i
      invariant forall j | 0 <= j < i :: schemas[j].self == owners[j] && SchemaHolds(schemas[j], rows)
    {
      var s := AssembleSchema(owners[i], headers, g, rows);
      schemas := schemas + [s];
    }
    OwnersApart(rows.schemas, owners);
    OrdersTransitive();
    SortByAscends(schemas, SchemaBefore);
    c := SortBy(schemas, SchemaBefore);
    ParsedSays(rows.schemas, MapOwned, owners);
    assert Selves(schemas) == owners;
    SameSelves(c, schemas);
  }

  lemma OwnersApart(rows: seq<RawRow>, owners: seq<Owned>)
    requires Parsed(rows, MapOwned, owners) && SchemasOk(rows)
    ensures forall i, j | 0 <= i < j < |owners| :: owners[i].name != owners[j].name
  {
    forall i, j | 0 <= i < j < |owners| ensures owners[i].name != owners[j].name {
      assert RowsApart(MapOwned, OwnedApart)(rows[i], rows[j]);
      assert MapOwned(rows[i]) == Some(owners[i]) && MapOwned(rows[j]) == Some(owners[j]);
    }
  }

  lemma SameSelves(a: Catalogue, b: Catalogue)
    requires forall s :: s in a <==> s in b
    ensures forall x :: x in Selves(a) <==> x in Selves(b)
  {
    SelvesFrom(a, b);
    SelvesFrom(b, a);
  }

  lemma SelvesFrom(a: Catalogue, b: Catalogue)
    requires forall s <- a :: s in b
    ensures forall x :: x in Selves(a) ==> x in Selves(b)
  {
    forall x | x in Selves(a) ensures x in Selves(b) {
      var i :| 0 <= i < |a| && Selves(a)[i] == x;
      assert a[i] in b;
      var j :| 0 <= j < |b| && b[j] == a[i];
      assert Selves(b)[j] == x;
    }
  }

  lemma HeadersAreApart(rows: seq<RawRow>, headers: seq<Header>, schemas: seq<RawRow>)
    requires Parsed(rows, MapHeader, headers) && TablesOk(rows, schemas)
    ensures Pairwise(headers, HeadersApart)
  {
    forall i, j | 0 <= i < j < |headers| ensures HeadersApart(headers[i], headers[j]) {
      assert RowsApart(MapHeader, HeadersApart)(rows[i], rows[j]);
      assert MapHeader(rows[i]) == Some(headers[i]) && MapHeader(rows[j]) == Some(headers[j]);
    }
  }

  /**
   Succeeds exactly when every row is well-formed, has its parent and clashes with no other,
   and then gives the one catalogue the rows describe.
  */
  method MapSchemaCatalogue(rows: Rows) returns (r: Option<Catalogue>)
    ensures r.Some? <==> Acceptable(rows)
    ensures r.Some? ==> Describes(r.value, rows)
  {
    var owners := ReadSchemas(rows.schemas, MapOwned, (x: Owned) => true);
    if owners.None? {
      return None;
    }
    OwnersPlace(rows.schemas, owners.value);
    var headers := ReadTables(rows.tables, owners.value, MapHeader, InSchema(rows.schemas));
    if headers.None? {
      return None;
    }
    var columns := ReadChildren(rows.columns, headers.value, LocateColumn, ColumnsApart, rows.tables);
    if columns.None? {
      return None;
    }
    var constraints := ReadChildren(rows.constraints, headers.value, LocateConstraint, ConstraintsApart, rows.tables);
    if constraints.None? {
      return None;
    }
    var indexes := ReadChildren(rows.indexes, headers.value, LocateIndex, IndexesApart, rows.tables);
    if indexes.None? {
      return None;
    }
    HeadersAreApart(rows.tables, headers.value, rows.schemas);
    var c := Assemble(owners.value, headers.value, Groups(columns.value, constraints.value, indexes.value), rows);
    return Some(c);
  }
}
