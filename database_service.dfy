/** `DatabaseService` against an abstract destination: the set of created
    tables and one map per table from identity key to the row's other
    columns. Table creation, the column check and the three batched upserts
    are modelled; connections and statements are not. */
module Database {
  import opened Wrappers
  import opened JavaString
  import opened Decimals
  import opened TableMetadata
  import XmlParser

  // ---------------------------------------------------------------------
  // Insert-or-update keyed by an identity column

  /** The identity keys a batch writes. */
  function KeysOf<T>(batch: seq<T>, key: T -> string): set<string> {
    set i | 0 <= i < |batch| :: key(batch[i])
  }

  /** The table after the batch's `INSERT ... ON CONFLICT (key) DO UPDATE`
      statements have run in order: each one inserts its row, or replaces
      every non-key column of the row with the same key. */
  function Upserted<T, V>(rows: map<string, V>, batch: seq<T>, key: T -> string, value: T -> V): map<string, V> {
    if batch == [] then rows
    else Upserted(rows, batch[..|batch| - 1], key, value)[key(batch[|batch| - 1]) := value(batch[|batch| - 1])]
  }

  /** No row is deleted, and a row exists afterwards exactly when it existed
      before or the batch has its key. */
  lemma {:induction false} UpsertedKeys<T, V>(rows: map<string, V>, batch: seq<T>, key: T -> string, value: T -> V)
    ensures Upserted(rows, batch, key, value).Keys == rows.Keys + KeysOf(batch, key)
  {
    if batch != [] {
      var init := batch[..|batch| - 1];
      UpsertedKeys(rows, init, key, value);
      assert KeysOf(batch, key) == KeysOf(init, key) + {key(batch[|batch| - 1])} by {
        forall k | k in KeysOf(batch, key) ensures k in KeysOf(init, key) + {key(batch[|batch| - 1])} {
          var i :| 0 <= i < |batch| && key(batch[i]) == k;
          if i < |batch| - 1 {
            assert init[i] == batch[i];
          }
        }
        forall k | k in KeysOf(init, key) ensures k in KeysOf(batch, key) {
          var i :| 0 <= i < |init| && key(init[i]) == k;
          assert batch[i] == init[i];
        }
      }
    }
  }

  /** Rows whose key the batch does not have keep their values. */
  lemma {:induction false} UpsertedKeepsOthers<T, V>(rows: map<string, V>, batch: seq<T>, key: T -> string, value: T -> V, k: string)
    requires k in rows && k !in KeysOf(batch, key)
    ensures k in Upserted(rows, batch, key, value) && Upserted(rows, batch, key, value)[k] == rows[k]
  {
    if batch != [] {
      var init := batch[..|batch| - 1];
      assert key(batch[|batch| - 1]) in KeysOf(batch, key);
      assert KeysOf(init, key) <= KeysOf(batch, key) by {
        forall k' | k' in KeysOf(init, key) ensures k' in KeysOf(batch, key) {
          var i :| 0 <= i < |init| && key(init[i]) == k';
          assert batch[i] == init[i];
        }
      }
      UpsertedKeepsOthers(rows, init, key, value, k);
    }
  }

  /** Last write wins: a key of the batch ends up holding the value of the
      last record with that key. */
  lemma {:induction false} UpsertedLastWins<T, V>(rows: map<string, V>, batch: seq<T>, key: T -> string, value: T -> V, i: nat)
    requires i < |batch|
    requires forall j :: i < j < |batch| ==> key(batch[j]) != key(batch[i])
    ensures key(batch[i]) in Upserted(rows, batch, key, value)
    ensures Upserted(rows, batch, key, value)[key(batch[i])] == value(batch[i])
  {
    var init := batch[..|batch| - 1];
    if i < |batch| - 1 {
      assert forall j :: i < j < |init| ==> init[j] == batch[j];
      assert init[i] == batch[i];
      UpsertedLastWins(rows, init, key, value, i);
    }
  }

  /** The last record of the batch carrying a given key. */
  lemma {:induction false} LastWithKey<T>(batch: seq<T>, key: T -> string, k: string) returns (i: nat)
    requires k in KeysOf(batch, key)
    ensures i < |batch| && key(batch[i]) == k
    ensures forall j :: i < j < |batch| ==> key(batch[j]) != k
  {
    i := |batch| - 1;
    while key(batch[i]) != k
      invariant 0 <= i < |batch|
      invariant forall j :: i < j < |batch| ==> key(batch[j]) != k
      invariant exists j :: 0 <= j <= i && key(batch[j]) == k
      decreases i
    {
      i := i - 1;
    }
  }

  /** Running the same batch a second time changes nothing. */
  lemma {:induction false} UpsertedIdempotent<T, V>(rows: map<string, V>, batch: seq<T>, key: T -> string, value: T -> V)
    ensures Upserted(Upserted(rows, batch, key, value), batch, key, value) == Upserted(rows, batch, key, value)
  {
    var once := Upserted(rows, batch, key, value);
    var twice := Upserted(once, batch, key, value);
    UpsertedKeys(rows, batch, key, value);
    UpsertedKeys(once, batch, key, value);
    forall k | k in twice
      ensures twice[k] == once[k]
    {
      if k in KeysOf(batch, key) {
        var i := LastWithKey(batch, key, k);
        UpsertedLastWins(rows, batch, key, value, i);
        UpsertedLastWins(once, batch, key, value, i);
      } else {
        UpsertedKeepsOthers(once, batch, key, value, k);
      }
    }
  }

  /** The row of `offers` apart from its key. */
  datatype OfferRow = OfferRow(name: string, categoryId: Option<string>, price: Option<Decimal>, currencyCode: Option<string>)

  function CurrencyKey(c: XmlParser.CurrencyData): string { c.code }
  function CurrencyValue(c: XmlParser.CurrencyData): Decimal { c.rate }
  function CategoryKey(c: XmlParser.CategoryData): string { c.id }
  function CategoryValue(c: XmlParser.CategoryData): string { c.name }
  function OfferKey(o: XmlParser.OfferData): string { o.vendorCode }
  function OfferValue(o: XmlParser.OfferData): OfferRow { OfferRow(o.name, o.categoryId, o.price, o.currencyCode) }

  /** An offer upsert sets all four non-key columns from the last record
      with that vendor code, null fields included. */
  lemma {:induction false} OfferUpsertOverwritesAll(rows: map<string, OfferRow>, offers: seq<XmlParser.OfferData>, i: nat)
    requires i < |offers|
    requires forall j :: i < j < |offers| ==> offers[j].vendorCode != offers[i].vendorCode
    ensures offers[i].vendorCode in Upserted(rows, offers, OfferKey, OfferValue)
    ensures var row := Upserted(rows, offers, OfferKey, OfferValue)[offers[i].vendorCode];
      && row.name == offers[i].name
      && row.categoryId == offers[i].categoryId
      && row.price == offers[i].price
      && row.currencyCode == offers[i].currencyCode
  {
    UpsertedLastWins(rows, offers, OfferKey, OfferValue, i);
  }

  // ---------------------------------------------------------------------
  // Table creation

  /** The tables named in a list of known names. */
  function TablesNamed(names: seq<string>): set<Table> {
    set i | 0 <= i < |names| && TableOf(names[i]).Some? :: TableOf(names[i]).value
  }

  /** `createTables`: the statements run one by one, each creating its table
      unless it exists; an unknown name stops the run, and the tables named
      before it stay created. */
  function CreateAll(existing: set<Table>, names: seq<string>): (set<Table>, Outcome<DbError>)
    decreases |names|
  {
    if names == [] then (existing, Pass)
    else
      match TableOf(names[0])
      case None => (existing, Fail(Unknown(names[0])))
      case Some(t) => CreateAll(existing + {t}, names[1..])
  }

  /** Creation passes exactly when every name is known, and then adds the
      named tables. */
  lemma {:induction false} CreateAllPasses(existing: set<Table>, names: seq<string>)
    ensures CreateAll(existing, names).1 == Pass <==> forall i :: 0 <= i < |names| ==> TableOf(names[i]).Some?
    ensures CreateAll(existing, names).1 == Pass ==> CreateAll(existing, names).0 == existing + TablesNamed(names)
    decreases |names|
  {
    if names != [] {
      var rest := names[1..];
      assert forall i :: 1 <= i < |names| ==> names[i] == rest[i - 1];
      if TableOf(names[0]).Some? {
        var t := TableOf(names[0]).value;
        CreateAllPasses(existing + {t}, rest);
        TablesNamedCons(names);
      }
    }
  }

  /** Otherwise creation fails on the first unknown name, having added the
      tables named before it. */
  lemma {:induction false} CreateAllFails(existing: set<Table>, names: seq<string>)
    ensures CreateAll(existing, names).1.Fail? ==>
      exists i :: 0 <= i < |names| && TableOf(names[i]).None?
                  && (forall j :: 0 <= j < i ==> TableOf(names[j]).Some?)
                  && CreateAll(existing, names) == (existing + TablesNamed(names[..i]), Fail(Unknown(names[i])))
    decreases |names|
  {
    if names != [] && CreateAll(existing, names).1.Fail? {
      var rest := names[1..];
      if TableOf(names[0]).None? {
        assert names[..0] == [];
        assert TablesNamed(names[..0]) == {};
        assert existing + TablesNamed(names[..0]) == existing;
        assert CreateAll(existing, names) == (existing + TablesNamed(names[..0]), Fail(Unknown(names[0])));
      } else {
        var t := TableOf(names[0]).value;
        CreateAllFails(existing + {t}, rest);
        var i :| 0 <= i < |rest| && TableOf(rest[i]).None?
                 && (forall j :: 0 <= j < i ==> TableOf(rest[j]).Some?)
                 && CreateAll(existing + {t}, rest) == (existing + {t} + TablesNamed(rest[..i]), Fail(Unknown(rest[i])));
        var prefix := names[..i + 1];
        assert prefix[0] == names[0];
        assert prefix[1..] == rest[..i] by {
          assert |prefix[1..]| == |rest[..i]| == i;
          forall k | 0 <= k < i ensures prefix[1..][k] == rest[..i][k] {
            assert prefix[1..][k] == names[k + 1] == rest[k];
          }
        }
        TablesNamedCons(prefix);
        forall j | 0 <= j < i + 1 ensures TableOf(names[j]).Some? {
          if j > 0 {
            assert names[j] == rest[j - 1];
          }
        }
        assert names[i + 1] == rest[i];
        assert CreateAll(existing, names) == CreateAll(existing + {t}, rest);
        assert existing + {t} + TablesNamed(rest[..i]) == existing + TablesNamed(prefix);
      }
    }
  }

  lemma {:induction false} TablesNamedCons(names: seq<string>)
    requires names != [] && TableOf(names[0]).Some?
    ensures TablesNamed(names) == {TableOf(names[0]).value} + TablesNamed(names[1..])
  {
    var rest := names[1..];
    forall t | t in TablesNamed(names) ensures t in {TableOf(names[0]).value} + TablesNamed(rest) {
      var i :| 0 <= i < |names| && TableOf(names[i]).Some? && TableOf(names[i]).value == t;
      if i > 0 {
        assert rest[i - 1] == names[i];
      }
    }
    forall t | t in TablesNamed(rest) ensures t in TablesNamed(names) {
      var i :| 0 <= i < |rest| && TableOf(rest[i]).Some? && TableOf(rest[i]).value == t;
      assert names[i + 1] == rest[i];
    }
  }

  /** Creating never drops a table, and creating the same list again, or a
      table that exists, changes nothing. */
  lemma {:induction false} CreateAllIdempotent(existing: set<Table>, names: seq<string>)
    ensures existing <= CreateAll(existing, names).0
    ensures CreateAll(CreateAll(existing, names).0, names) == (CreateAll(existing, names).0, CreateAll(existing, names).1)
  {
    CreateAllPasses(existing, names);
    CreateAllFails(existing, names);
    var after := CreateAll(existing, names).0;
    CreateAllPasses(after, names);
    CreateAllFails(after, names);
    if CreateAll(existing, names).1.Fail? {
      var i :| 0 <= i < |names| && TableOf(names[i]).None?
               && (forall j :: 0 <= j < i ==> TableOf(names[j]).Some?)
               && CreateAll(existing, names) == (existing + TablesNamed(names[..i]), Fail(Unknown(names[i])));
      var i' :| 0 <= i' < |names| && TableOf(names[i']).None?
                && (forall j :: 0 <= j < i' ==> TableOf(names[j]).Some?)
                && CreateAll(after, names) == (after + TablesNamed(names[..i']), Fail(Unknown(names[i'])));
      assert i == i';
      assert TablesNamed(names[..i]) <= after;
    } else {
      assert TablesNamed(names) <= after;
    }
  }

  // ---------------------------------------------------------------------
  // The column check of `validateDatabaseStructure`

  /** The columns the database reports for a table; a table it does not
      have reports none. */
  function Reported(actual: map<string, seq<string>>, name: string): seq<string> {
    if name in actual then actual[name] else []
  }

  function LowerAll(columns: seq<string>): (r: seq<string>)
    ensures |r| == |columns|
    ensures forall i :: 0 <= i < |columns| ==> r[i] == ToLower(columns[i])
  {
    if columns == [] then [] else [ToLower(columns[0])] + LowerAll(columns[1..])
  }

  /** One table's check as written: every expected column, as declared, must
      be among the lower-cased reported columns. A name without expected
      columns makes `containsAll(null)` throw. */
  function TableCheck(name: string, existing: seq<string>): Outcome<DbError> {
    match TableOf(name)
    case None => Fail(NullExpectedColumns(name))
    case Some(t) =>
      if forall c :: c in Columns(t) ==> c in existing then Pass
      else Fail(SchemaMismatch(name, Columns(t), existing))
  }

  /** The check of one listed table against what the database reports. */
  function CheckReported(name: string, actual: map<string, seq<string>>): Outcome<DbError> {
    TableCheck(name, LowerAll(Reported(actual, name)))
  }

  function StructureCheck(names: seq<string>, actual: map<string, seq<string>>): Outcome<DbError> {
    if names == [] then Pass
    else
      match CheckReported(names[0], actual)
      case Fail(e) => Fail(e)
      case Pass => StructureCheck(names[1..], actual)
  }

  /** The check passes exactly when every listed table is known and has every
      expected column among its lower-cased columns. */
  lemma {:induction false} StructureCheckPasses(names: seq<string>, actual: map<string, seq<string>>)
    ensures StructureCheck(names, actual) == Pass <==>
      forall i :: 0 <= i < |names| ==> CheckReported(names[i], actual) == Pass
  {
    if names != [] {
      StructureCheckPasses(names[1..], actual);
      assert forall i :: 1 <= i < |names| ==> names[i] == names[1..][i - 1];
    }
  }

  /** Otherwise the error reported is that of the first failing table. */
  lemma {:induction false} StructureCheckFirstFailure(names: seq<string>, actual: map<string, seq<string>>)
    ensures StructureCheck(names, actual).Fail? ==>
      exists i :: 0 <= i < |names|
                  && (forall j :: 0 <= j < i ==> CheckReported(names[j], actual) == Pass)
                  && CheckReported(names[i], actual) == StructureCheck(names, actual)
  {
    if names != [] && StructureCheck(names, actual).Fail? {
      if CheckReported(names[0], actual) == Pass {
        var rest := names[1..];
        StructureCheckFirstFailure(rest, actual);
        var i :| 0 <= i < |rest|
                 && (forall j :: 0 <= j < i ==> CheckReported(rest[j], actual) == Pass)
                 && CheckReported(rest[i], actual) == StructureCheck(rest, actual);
        assert StructureCheck(names, actual) == StructureCheck(rest, actual);
        forall j | 0 <= j < i + 1 ensures CheckReported(names[j], actual) == Pass {
          if j > 0 {
            assert names[j] == rest[j - 1];
          }
        }
        assert names[i + 1] == rest[i];
      } else {
        assert CheckReported(names[0], actual) == StructureCheck(names, actual);
      }
    }
  }

  /** Column order and extra columns do not matter: a table that passes still
      passes when its reported columns are reordered or added to; a known
      table reporting no columns fails. */
  lemma {:induction false} TableCheckIgnoresOrderAndExtras(name: string, existing: seq<string>, more: seq<string>)
    requires forall c :: c in existing ==> c in more
    ensures TableCheck(name, existing) == Pass ==> TableCheck(name, more) == Pass
    ensures TableOf(name).Some? ==> TableCheck(name, []) == Fail(SchemaMismatch(name, Columns(TableOf(name).value), []))
  {
    if TableOf(name).Some? {
      IdColumnIsFirst(TableOf(name).value);
      assert Columns(TableOf(name).value)[0] in Columns(TableOf(name).value);
    }
  }

  /** As written, the offers check can never pass: it looks for "vendorCode"
      among lower-cased names, and no lower-cased name has a capital C. */
  lemma {:induction false} OffersNeverValidates(names: seq<string>, actual: map<string, seq<string>>)
    requires "offers" in names
    ensures StructureCheck(names, actual).Fail?
  {
    var k :| 0 <= k < |names| && names[k] == "offers";
    OffersTableCheckFails(actual);
    StructureCheckPasses(names, actual);
  }

  /** The offers table alone fails whatever columns it reports. */
  lemma {:induction false} OffersTableCheckFails(actual: map<string, seq<string>>)
    ensures CheckReported("offers", actual).Fail?
  {
    var existing := LowerAll(Reported(actual, "offers"));
    assert TableOf("offers") == Some(Offers);
    assert !IsLowerCase("vendorCode") by {
      assert "vendorCode"[6] == 'C';
    }
    assert forall i :: 0 <= i < |existing| ==> IsLowerCase(existing[i]);
    assert "vendorCode" in Columns(Offers);
  }

  /** The evidently intended check: expected and reported names compared
      without regard to case. */
  function TableCheckIgnoringCase(name: string, existing: seq<string>): Outcome<DbError> {
    match TableOf(name)
    case None => Fail(NullExpectedColumns(name))
    case Some(t) =>
      if forall c :: c in Columns(t) ==> ToLower(c) in existing then Pass
      else Fail(SchemaMismatch(name, Columns(t), existing))
  }

  function CheckReportedIgnoringCase(name: string, actual: map<string, seq<string>>): Outcome<DbError> {
    TableCheckIgnoringCase(name, LowerAll(Reported(actual, name)))
  }

  function StructureCheckIgnoringCase(names: seq<string>, actual: map<string, seq<string>>): Outcome<DbError> {
    if names == [] then Pass
    else
      match CheckReportedIgnoringCase(names[0], actual)
      case Fail(e) => Fail(e)
      case Pass => StructureCheckIgnoringCase(names[1..], actual)
  }

  lemma {:induction false} LowerCharIdempotent(c: char)
    ensures LowerChar(LowerChar(c)) == LowerChar(c)
  {
  }

  lemma {:induction false} ToLowerIdempotent(s: string)
    ensures ToLower(ToLower(s)) == ToLower(s)
  {
    forall i | 0 <= i < |s| ensures ToLower(ToLower(s))[i] == ToLower(s)[i] {
      LowerCharIdempotent(s[i]);
    }
  }

  /** The corrected check accepts a table whose reported columns are its
      declared ones, whether reported as declared or folded to lower case. */
  lemma {:induction false} CorrectedTableCheckAccepts(t: Table, reported: seq<string>)
    requires reported == Columns(t) || reported == LowerAll(Columns(t))
    ensures TableCheckIgnoringCase(TableName(t), LowerAll(reported)) == Pass
  {
    TableNameRoundTrip(t, TableName(t));
    var existing := LowerAll(reported);
    forall c | c in Columns(t) ensures ToLower(c) in existing {
      var i :| 0 <= i < |Columns(t)| && Columns(t)[i] == c;
      ToLowerIdempotent(c);
      assert existing[i] == ToLower(c);
    }
  }

  /** Hence the corrected check passes on every list of known tables that
      report their declared columns (the as-written check rejects any such
      list naming offers, by OffersNeverValidates). */
  lemma {:induction false} CorrectedCheckAcceptsDeclaredColumns(names: seq<string>, actual: map<string, seq<string>>)
    requires forall name :: name in names ==> ReportsDeclared(name, actual)
    ensures StructureCheckIgnoringCase(names, actual) == Pass
  {
    if names != [] {
      CorrectedCheckOne(names[0], actual);
      var rest := names[1..];
      assert forall name :: name in rest ==> name in names;
      CorrectedCheckAcceptsDeclaredColumns(rest, actual);
    }
  }

  lemma {:induction false} CorrectedCheckOne(name: string, actual: map<string, seq<string>>)
    requires ReportsDeclared(name, actual)
    ensures CheckReportedIgnoringCase(name, actual) == Pass
  {
    var t := TableOf(name).value;
    TableNameRoundTrip(t, name);
    CorrectedTableCheckAccepts(t, Reported(actual, name));
  }

  /** A known table whose reported columns are its declared ones, as
      declared or folded to lower case. */
  predicate ReportsDeclared(name: string, actual: map<string, seq<string>>) {
    TableOf(name).Some?
    && (Reported(actual, name) == Columns(TableOf(name).value)
        || Reported(actual, name) == LowerAll(Columns(TableOf(name).value)))
  }

  /** The smallest input on which the two checks differ. */
  lemma {:induction false} OffersCheckCounterexample()
    ensures StructureCheck(["offers"], map["offers" := Columns(Offers)]).Fail?
    ensures StructureCheckIgnoringCase(["offers"], map["offers" := Columns(Offers)]) == Pass
  {
    var actual := map["offers" := Columns(Offers)];
    assert ReportsDeclared("offers", actual);
    CorrectedCheckAcceptsDeclaredColumns(["offers"], actual);
    OffersNeverValidates(["offers"], actual);
  }

  /** The column names a table reports, each lower-cased, in order. */
  method LowerColumns(reported: seq<string>) returns (lowered: seq<string>)
    ensures lowered == LowerAll(reported)
  {
    lowered := [];
    var j := 0;
    while j < |reported|
      invariant 0 <= j <= |reported|
      invariant lowered == LowerAll(reported[..j])
    {
      LowerAllSnoc(reported[..j], reported[j]);
      assert reported[..j + 1] == reported[..j] + [reported[j]];
      lowered := lowered + [ToLower(reported[j])];
      j := j + 1;
    }
    assert reported[..j] == reported;
  }

  // ---------------------------------------------------------------------
  // The service

  class DatabaseService {
    /** The tables that exist in the destination. */
    var tables: set<Table>
    /** `currency`: code to rate. */
    var currencyRows: map<string, Decimal>
    /** `categories`: category_id to name. */
    var categoryRows: map<string, string>
    /** `offers`: vendorCode to the other four columns. */
    var offerRows: map<string, OfferRow>

    /** Rows are only ever held by tables that exist. */
    predicate Valid()
      reads this
    {
      && (currencyRows != map[] ==> Currency in tables)
      && (categoryRows != map[] ==> Categories in tables)
      && (offerRows != map[] ==> Offers in tables)
    }

    /** A service attached to a destination that already holds these
        tables and rows; a row can only be in a table that exists. */
    constructor(tables0: set<Table>, currencyRows0: map<string, Decimal>,
                categoryRows0: map<string, string>, offerRows0: map<string, OfferRow>)
      requires currencyRows0 != map[] ==> Currency in tables0
      requires categoryRows0 != map[] ==> Categories in tables0
      requires offerRows0 != map[] ==> Offers in tables0
      ensures Valid()
      ensures tables == tables0 && currencyRows == currencyRows0
      ensures categoryRows == categoryRows0 && offerRows == offerRows0
    {
      tables := tables0;
      currencyRows := currencyRows0;
      categoryRows := categoryRows0;
      offerRows := offerRows0;
    }

    /** `createTables`: runs the DDL of each name in order; no rows change. */
    method CreateTables(names: seq<string>) returns (outcome: Outcome<DbError>)
      requires Valid()
      modifies this
      ensures Valid()
      ensures (tables, outcome) == CreateAll(old(tables), names)
      ensures currencyRows == old(currencyRows) && categoryRows == old(categoryRows) && offerRows == old(offerRows)
    {
      for i := 0 to |names|
        invariant CreateAll(tables, names[i..]) == CreateAll(old(tables), names)
        invariant old(tables) <= tables
        invariant currencyRows == old(currencyRows) && categoryRows == old(categoryRows) && offerRows == old(offerRows)
      {
        assert names[i..][1..] == names[i + 1..];
        var ddl := GetTableDDL(names[i]);
        if ddl.Err? {
          outcome := Fail(ddl.error);
          return;
        }
        tables := tables + {TableOf(names[i]).value};
      }
      outcome := Pass;
    }

    /** `validateDatabaseStructure`, given the columns the database reports
        per table: for each name in order, lower-case the reported columns
        and require the expected ones among them. */
    method ValidateDatabaseStructure(names: seq<string>, actual: map<string, seq<string>>) returns (outcome: Outcome<DbError>)
      ensures outcome == StructureCheck(names, actual)
    {
      for i := 0 to |names|
        invariant StructureCheck(names[i..], actual) == StructureCheck(names, actual)
      {
        assert names[i..][1..] == names[i + 1..];
        var name := names[i];
        var reported := Reported(actual, name);
        var existingColumns := LowerColumns(reported);
        var expectedColumns := GetColumnNames(name);
        if expectedColumns.Err? {
          outcome := Fail(NullExpectedColumns(name));
          return;
        }
        if !(forall c :: c in expectedColumns.value ==> c in existingColumns) {
          outcome := Fail(SchemaMismatch(name, expectedColumns.value, existingColumns));
          return;
        }
      }
      outcome := Pass;
    }

    /** `upsertCurrencies`: nothing for an empty list; otherwise the batch is
        written to `currency`, or fails as a whole when the table is missing. */
    method UpsertCurrencies(currencies: seq<XmlParser.CurrencyData>) returns (outcome: Outcome<DbError>)
      requires Valid()
      modifies this
      ensures Valid()
      ensures tables == old(tables) && categoryRows == old(categoryRows) && offerRows == old(offerRows)
      ensures currencies == [] ==> outcome == Pass && currencyRows == old(currencyRows)
      ensures Currency !in tables ==> currencyRows == map[]
      ensures currencies != [] && Currency !in tables ==>
                outcome == Fail(WriteFailed("currency")) && currencyRows == old(currencyRows)
      ensures currencies != [] && Currency in tables ==>
                outcome == Pass && currencyRows == Upserted(old(currencyRows), currencies, CurrencyKey, CurrencyValue)
    {
      if currencies == [] {
        return Pass;
      }
      if Currency !in tables {
        return Fail(WriteFailed("currency"));
      }
      for i := 0 to |currencies|
        invariant currencyRows == Upserted(old(currencyRows), currencies[..i], CurrencyKey, CurrencyValue)
        invariant tables == old(tables) && categoryRows == old(categoryRows) && offerRows == old(offerRows)
      {
        assert currencies[..i + 1][..i] == currencies[..i];
        currencyRows := currencyRows[currencies[i].code := currencies[i].rate];
      }
      assert currencies[..|currencies|] == currencies;
      outcome := Pass;
    }

    /** `upsertCategories`, like `UpsertCurrencies` on `categories`. */
    method UpsertCategories(categories: seq<XmlParser.CategoryData>) returns (outcome: Outcome<DbError>)
      requires Valid()
      modifies this
      ensures Valid()
      ensures tables == old(tables) && currencyRows == old(currencyRows) && offerRows == old(offerRows)
      ensures categories == [] ==> outcome == Pass && categoryRows == old(categoryRows)
      ensures Categories !in tables ==> categoryRows == map[]
      ensures categories != [] && Categories !in tables ==>
                outcome == Fail(WriteFailed("categories")) && categoryRows == old(categoryRows)
      ensures categories != [] && Categories in tables ==>
                outcome == Pass && categoryRows == Upserted(old(categoryRows), categories, CategoryKey, CategoryValue)
    {
      if categories == [] {
        return Pass;
      }
      if Categories !in tables {
        return Fail(WriteFailed("categories"));
      }
      for i := 0 to |categories|
        invariant categoryRows == Upserted(old(categoryRows), categories[..i], CategoryKey, CategoryValue)
        invariant tables == old(tables) && currencyRows == old(currencyRows) && offerRows == old(offerRows)
      {
        assert categories[..i + 1][..i] == categories[..i];
        categoryRows := categoryRows[categories[i].id := categories[i].name];
      }
      assert categories[..|categories|] == categories;
      outcome := Pass;
    }

    /** `upsertOffers`, like `UpsertCurrencies` on `offers`; every non-key
        column is overwritten, null values included. */
    method UpsertOffers(offers: seq<XmlParser.OfferData>) returns (outcome: Outcome<DbError>)
      requires Valid()
      modifies this
      ensures Valid()
      ensures tables == old(tables) && currencyRows == old(currencyRows) && categoryRows == old(categoryRows)
      ensures offers == [] ==> outcome == Pass && offerRows == old(offerRows)
      ensures Offers !in tables ==> offerRows == map[]
      ensures offers != [] && Offers !in tables ==>
                outcome == Fail(WriteFailed("offers")) && offerRows == old(offerRows)
      ensures offers != [] && Offers in tables ==>
                outcome == Pass && offerRows == Upserted(old(offerRows), offers, OfferKey, OfferValue)
    {
      if offers == [] {
        return Pass;
      }
      if Offers !in tables {
        return Fail(WriteFailed("offers"));
      }
      for i := 0 to |offers|
        invariant offerRows == Upserted(old(offerRows), offers[..i], OfferKey, OfferValue)
        invariant tables == old(tables) && currencyRows == old(currencyRows) && categoryRows == old(categoryRows)
      {
        assert offers[..i + 1][..i] == offers[..i];
        var offer := offers[i];
        offerRows := offerRows[offer.vendorCode := OfferRow(offer.name, offer.categoryId, offer.price, offer.currencyCode)];
      }
      assert offers[..|offers|] == offers;
      outcome := Pass;
    }
  }

  lemma {:induction false} LowerAllSnoc(columns: seq<string>, c: string)
    ensures LowerAll(columns + [c]) == LowerAll(columns) + [ToLower(c)]
  {
  }
}
