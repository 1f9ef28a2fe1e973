/** The static table metadata of `DatabaseService`: the three known tables,
    their expected columns in declaration order, their identity columns, and
    the `CREATE TABLE` statement of each. */
module TableMetadata {
  import opened Wrappers

  datatype Table = Currency | Categories | Offers

  /** The name a table has in the database and in every API call. */
  function TableName(t: Table): string {
    match t
    case Currency => "currency"
    case Categories => "categories"
    case Offers => "offers"
  }

  /** `validateTableName`: only the three names of `TABLE_COLUMNS` are known. */
  function TableOf(name: string): (r: Option<Table>)
    ensures r.Some? <==> name == "currency" || name == "categories" || name == "offers"
  {
    if name == "currency" then Some(Currency)
    else if name == "categories" then Some(Categories)
    else if name == "offers" then Some(Offers)
    else None
  }

  /** Table names and tables are in one-to-one correspondence. */
  lemma {:induction false} TableNameRoundTrip(t: Table, name: string)
    ensures TableOf(TableName(t)) == Some(t)
    ensures TableOf(name) == Some(t) ==> TableName(t) == name
  {
    assert "categories"[1] != "currency"[1];
    assert "offers"[0] != "currency"[0];
  }

  /** `TABLE_COLUMNS`: the expected columns of each table, in order. */
  function Columns(t: Table): seq<string> {
    match t
    case Currency => ["code", "rate"]
    case Categories => ["category_id", "name"]
    case Offers => ["vendorCode", "name", "category_id", "price", "currency_code"]
  }

  /** `TABLE_ID_COLUMNS`: the identity (conflict) column of each table. */
  function IdColumn(t: Table): string {
    match t
    case Currency => "code"
    case Categories => "category_id"
    case Offers => "vendorCode"
  }

  /** The identity column is always the first expected column, and the
      expected columns of a table are pairwise distinct. */
  lemma {:induction false} IdColumnIsFirst(t: Table)
    ensures Columns(t) != [] && Columns(t)[0] == IdColumn(t)
    ensures forall i, j :: 0 <= i < j < |Columns(t)| ==> Columns(t)[i] != Columns(t)[j]
  {
    var cs := Columns(t);
    forall i, j | 0 <= i < j < |cs|
      ensures cs[i] != cs[j]
    {
      assert cs[i][0] != cs[j][0] || cs[i][1] != cs[j][1] || |cs[i]| != |cs[j]|;
    }
  }

  /** The failures of `DatabaseService`. `Unknown` is the
      `IllegalArgumentException("Unknown table: …")` every name lookup throws;
      the others belong to the column check and the writes. */
  datatype DbError =
    | Unknown(name: string)
    | NullExpectedColumns(table: string)
    | SchemaMismatch(table: string, expected: seq<string>, actual: seq<string>)
    | WriteFailed(entity: string)

  /** `getColumnNames`: the expected columns of a known table. */
  function GetColumnNames(name: string): (r: Result<seq<string>, DbError>)
    ensures r.Err? <==> TableOf(name).None?
    ensures r.Err? ==> r.error == Unknown(name)
    ensures r.Ok? ==> r.value == Columns(TableOf(name).value)
  {
    match TableOf(name)
    case None => Err(Unknown(name))
    case Some(t) => Ok(Columns(t))
  }

  /** `isColumnId`: a case-sensitive comparison with the identity column of
      a known table. */
  function IsColumnId(name: string, column: string): (r: Result<bool, DbError>)
    ensures r.Err? <==> TableOf(name).None?
    ensures r.Err? ==> r.error == Unknown(name)
    ensures r.Ok? ==> (r.value <==> column == IdColumn(TableOf(name).value))
  {
    match TableOf(name)
    case None => Err(Unknown(name))
    case Some(t) => Ok(column == IdColumn(t))
  }

  /** The column a known table's `isColumnId` accepts is one of its
      `getColumnNames`, namely the first. */
  lemma {:induction false} IdColumnIsListed(name: string, column: string)
    ensures IsColumnId(name, column) == Ok(true) ==>
              GetColumnNames(name).Ok? && GetColumnNames(name).value[0] == column
  {
    if TableOf(name).Some? {
      IdColumnIsFirst(TableOf(name).value);
    }
  }

  /** One column line of a `CREATE TABLE` statement. */
  datatype ColumnDef = ColumnDef(name: string, sqlType: string, primaryKey: bool, notNull: bool)

  /** One `FOREIGN KEY (column) REFERENCES table(column)` line. */
  datatype ForeignKey = ForeignKey(column: string, target: Table, targetColumn: string)

  function ColumnDefs(t: Table): seq<ColumnDef> {
    match t
    case Currency => [
      ColumnDef("code", "VARCHAR(10)", true, false),
      ColumnDef("rate", "NUMERIC(18,6)", false, true)]
    case Categories => [
      ColumnDef("category_id", "VARCHAR(50)", true, false),
      ColumnDef("name", "TEXT", false, true)]
    case Offers => [
      ColumnDef("vendorCode", "VARCHAR(100)", true, false),
      ColumnDef("name", "TEXT", false, true),
      ColumnDef("category_id", "VARCHAR(50)", false, false),
      ColumnDef("price", "NUMERIC(18,2)", false, false),
      ColumnDef("currency_code", "VARCHAR(10)", false, false)]
  }

  function ForeignKeys(t: Table): seq<ForeignKey> {
    match t
    case Offers => [
      ForeignKey("currency_code", Currency, "code"),
      ForeignKey("category_id", Categories, "category_id")]
    case _ => []
  }

  /** The DDL declares exactly the expected columns, in order; the primary
      key is the identity column and nothing else. */
  lemma {:induction false} DdlDeclaresColumns(t: Table)
    ensures |ColumnDefs(t)| == |Columns(t)|
    ensures forall i :: 0 <= i < |ColumnDefs(t)| ==> ColumnDefs(t)[i].name == Columns(t)[i]
    ensures forall i :: 0 <= i < |ColumnDefs(t)| ==> (ColumnDefs(t)[i].primaryKey <==> ColumnDefs(t)[i].name == IdColumn(t))
  {
    IdColumnIsFirst(t);
  }

  /** Only offers has foreign keys: its currency and category columns
      reference the identity columns of currency and categories. */
  lemma {:induction false} ForeignKeysReferenceIds(t: Table)
    ensures forall k :: 0 <= k < |ForeignKeys(t)| ==>
              ForeignKeys(t)[k].column in Columns(t)
              && ForeignKeys(t)[k].targetColumn == IdColumn(ForeignKeys(t)[k].target)
    ensures ForeignKeys(t) != [] <==> t == Offers
    ensures t == Offers ==>
              (exists k :: 0 <= k < |ForeignKeys(t)| && ForeignKeys(t)[k].target == Currency)
              && (exists k :: 0 <= k < |ForeignKeys(t)| && ForeignKeys(t)[k].target == Categories)
  {
    if t == Offers {
      assert ForeignKeys(t)[0].target == Currency;
      assert ForeignKeys(t)[1].target == Categories;
    }
  }

  function RenderColumn(c: ColumnDef): string {
    c.name + " " + c.sqlType + (if c.primaryKey then " PRIMARY KEY" else "") + (if c.notNull then " NOT NULL" else "")
  }

  function RenderForeignKey(fk: ForeignKey): string {
    "FOREIGN KEY (" + fk.column + ") REFERENCES " + TableName(fk.target) + "(" + fk.targetColumn + ")"
  }

  function ColumnLines(defs: seq<ColumnDef>): seq<string> {
    if defs == [] then [] else [RenderColumn(defs[0])] + ColumnLines(defs[1..])
  }

  function ForeignKeyLines(fks: seq<ForeignKey>): seq<string> {
    if fks == [] then [] else [RenderForeignKey(fks[0])] + ForeignKeyLines(fks[1..])
  }

  /** The body lines of the statement: columns first, then foreign keys. */
  function DdlLines(t: Table): seq<string> {
    ColumnLines(ColumnDefs(t)) + ForeignKeyLines(ForeignKeys(t))
  }

  function Header(t: Table): string {
    "CREATE TABLE IF NOT EXISTS " + TableName(t) + " (\n"
  }

  /** A body line: indented by four blanks, ended by a comma unless it is
      the last, and by a line break. */
  function BodyLine(line: string, isLast: bool): string {
    "    " + line + (if isLast then "\n" else ",\n")
  }

  /** The body lines in order, followed by `closing`. */
  function BodyText(lines: seq<string>, closing: string): string {
    if lines == [] then closing else BodyLine(lines[0], |lines| == 1) + BodyText(lines[1..], closing)
  }

  function Ddl(t: Table): string {
    Header(t) + BodyText(DdlLines(t), ");\n")
  }

  /** `getTableDDL`: the statement of a known table; the name is checked
      first, so no other name reaches the statement lookup. */
  function GetTableDDL(name: string): (r: Result<string, DbError>)
    ensures r.Err? <==> TableOf(name).None?
    ensures r.Err? ==> r.error == Unknown(name)
  {
    match TableOf(name)
    case None => Err(Unknown(name))
    case Some(t) => Ok(Ddl(t))
  }

  /** Each statement is an idempotent `CREATE TABLE IF NOT EXISTS` of the
      named table. */
  lemma {:induction false} DdlCreatesNamedTable(name: string)
    ensures GetTableDDL(name).Ok? ==>
      var prefix := "CREATE TABLE IF NOT EXISTS " + name + " (\n";
      |prefix| <= |GetTableDDL(name).value| && GetTableDDL(name).value[..|prefix|] == prefix
  {
    if TableOf(name).Some? {
      TableNameRoundTrip(TableOf(name).value, name);
    }
  }

  /** Line i of the rendered columns opens with the name of column i. */
  lemma {:induction false} ColumnLinesOpen(defs: seq<ColumnDef>)
    ensures |ColumnLines(defs)| == |defs|
    ensures forall i :: 0 <= i < |defs| ==>
              |defs[i].name + " "| <= |ColumnLines(defs)[i]|
              && ColumnLines(defs)[i][..|defs[i].name + " "|] == defs[i].name + " "
  {
    if defs != [] {
      ColumnLinesOpen(defs[1..]);
      assert forall i :: 1 <= i < |defs| ==> defs[i] == defs[1..][i - 1];
      var c := defs[0];
      assert RenderColumn(c) == (c.name + " ") + (c.sqlType + (if c.primaryKey then " PRIMARY KEY" else "") + (if c.notNull then " NOT NULL" else ""));
    }
  }

  /** Line by line, the statement body starts with the expected columns in
      their declared order: line i opens with the name of column i. */
  lemma {:induction false} DdlLinesStartWithColumns(t: Table)
    ensures |DdlLines(t)| >= |Columns(t)|
    ensures forall i :: 0 <= i < |Columns(t)| ==>
              |Columns(t)[i] + " "| <= |DdlLines(t)[i]| && DdlLines(t)[i][..|Columns(t)[i] + " "|] == Columns(t)[i] + " "
  {
    var defs := ColumnDefs(t);
    DdlDeclaresColumns(t);
    ColumnLinesOpen(defs);
    assert forall i :: 0 <= i < |defs| ==> DdlLines(t)[i] == ColumnLines(defs)[i];
  }
}
