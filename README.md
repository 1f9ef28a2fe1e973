# xml-service catalog import, modelled in Dafny

xml-service reads a YML product catalog (`yml_catalog` / `shop` with
`currencies`, `categories` and `offers` sections) and copies it into three
relational tables. This project models its two core classes.

- `XmlParser` finds the shop element and lists the sections it has. It turns
  `currency`, `category` and `offer` elements into `CurrencyData`,
  `CategoryData` and `OfferData` records.
- `DatabaseService` holds the static metadata of the tables `currency`,
  `categories` and `offers`: columns, identity columns and `CREATE TABLE`
  statements. It creates tables, checks the columns the database reports,
  and upserts record batches keyed by the identity column.

Files:

| file | module | contents |
|---|---|---|
| `wrappers.dfy` | `Wrappers` | `Option`, `Result`, `Outcome` |
| `text.dfy` | `JavaString` | `String.trim()` and `String.toLowerCase()` |
| `decimal.dfy` | `Decimals` | `new BigDecimal(String)` for plain decimals, and `toPlainString()` as its inverse |
| `xml.dfy` | `Xml` | an already-parsed element tree, and the GPath queries the parser makes (`getProperty`, `isEmpty`, `text()`, attributes, the shop lookup) |
| `xml_parser.dfy` | `XmlParser` | `getTableNames`, `parseCurrencies`, `parseCategories`, `parseOffers` |
| `tables.dfy` | `TableMetadata` | `TABLE_COLUMNS`, `TABLE_ID_COLUMNS`, `validateTableName`, `getColumnNames`, `isColumnId`, `getTableDDL` |
| `database_service.dfy` | `Database` | `createTables`, `validateDatabaseStructure`, `upsertCurrencies`, `upsertCategories` and `upsertOffers`, on a class whose fields are the destination |

Modelling choices:

- **The three parses share one loop.** Each walks the matching elements in
  document order. Per element it skips, emits one record, or aborts the whole
  call with the `NumberFormatException` of `new BigDecimal`.
  - `Extract(step, elements)` is the specification of that loop.
  - Each `Collect…` method runs the loop as the source does, and is proved
    equal to `Extract`.
  - The per-element rules (`CurrencyStep`, `CategoryStep`, `OfferStep`) are
    stated as lemmas.
- **The destination is a `DatabaseService` object.**
  - Its fields are the set of created tables and one map per table, from
    identity key to the rest of the row.
  - `createTables` and the upserts change these fields.
  - `validateDatabaseStructure` takes as a parameter the column names the
    database reports for each table.
  - Only a write into a missing table is modelled, as `WriteFailed`.
    Connection failures and other SQL errors are not modelled, so table
    creation and the structure check never fail at the database (for
    example, the `offers` statement refers to `currency(code)` and would
    fail on a database without `currency`; the model creates it anyway).
- **Exceptions are results.**
  - `IllegalArgumentException("Unknown table: …")` becomes the error
    `Unknown(name)`, shared by the table metadata and the service.
  - The structure-check exception becomes `SchemaMismatch`.
  - The `NullPointerException` that `containsAll(null)` throws for an
    unknown table name becomes `NullExpectedColumns`.

Where the code and its description disagree, the model follows the code:

- **Shop lookup.** `root` is the document's root element, and
  `root.getProperty("shop")` searches its children.
  - For a `yml_catalog` document the shop is found by the first query, not
    by the `yml_catalog` fallback.
  - The fallback only helps when the root has a `yml_catalog` child.
  - A document whose root element is `<shop>` itself has no shop, so every
    parse yields an empty list (`ShopAsRootIsNotFound`).
- **Empty price.** An offer with an empty `<price/>` has a price text of `""`,
  not null. `new BigDecimal("")` throws, so the whole offers parse fails
  (`EmptyPriceAborts`).
- **Category name.** The non-empty test runs before trimming, so in a tree
  whose category text is all blanks the category is accepted and stored as
  `""`. Groovy's `XmlSlurper` drops whitespace-only text nodes by default,
  so the running program never sees such text: it sees an empty text and
  skips the category. A blank currency `id` is accepted as the empty code
  (`BlankValuesAccepted`).

## Model

| member | source | states |
|---|---|---|
| JavaString.Trim | src/main/java/com/xmlservice/XmlParser.java:108 | `String.trim()` leaves no character at or below U+0020 at either end |
| JavaString.TrimSlice | src/main/java/com/xmlservice/XmlParser.java:108 | what `trim()` keeps is a contiguous slice of the input; everything it drops before and after is blank |
| JavaString.TrimFixedPoint | src/main/java/com/xmlservice/XmlParser.java:108 | `trim()` changes a string exactly when it is not already trimmed, and is idempotent |
| JavaString.TrimEmptyIffBlank | src/main/java/com/xmlservice/XmlParser.java:132 | `trim()` yields `""` exactly for all-blank input |
| JavaString.ToLower | src/main/java/com/xmlservice/service/DatabaseService.java:96 | `toLowerCase()` keeps the length, lowers each character, and leaves no capital letter |
| Decimals.ParseDecimal | src/main/java/com/xmlservice/XmlParser.java:108 | `new BigDecimal(s)` rejects the empty string, and accepts only text containing a digit |
| Decimals.ParsePlainString | src/main/java/com/xmlservice/XmlParser.java:163 | parsing the plain rendering of any decimal gives back the same unscaled value and scale |
| Decimals.EmptyIsNotDecimal | src/main/java/com/xmlservice/XmlParser.java:163 | `new BigDecimal("")` throws |
| Xml.NamedChildrenMembers | src/main/java/com/xmlservice/XmlParser.java:87 | an element is among the named children exactly when it is a child element with that name |
| Xml.Property | src/main/java/com/xmlservice/XmlParser.java:68 | computes `getProperty(name)` on a result: the children called `name` of every queried element, flattened in document order |
| Xml.PropertyShape | src/main/java/com/xmlservice/XmlParser.java:68 | `getProperty(name)` yields only elements with that name, and is empty exactly when no queried element has such a child |
| Xml.PropertyAppend | src/main/java/com/xmlservice/XmlParser.java:75 | `getProperty` on a concatenated result is the concatenation of the results |
| Xml.HasNode | src/main/java/com/xmlservice/XmlParser.java:86-89 | computes `hasNode`: whether `getProperty(name)` on the parent is non-empty |
| Xml.HasNodeMeaning | src/main/java/com/xmlservice/XmlParser.java:86-89 | `hasNode` holds exactly when some element of the result has a child element with that name |
| Xml.ElementText | src/main/java/com/xmlservice/XmlParser.java:129 | computes `text()` of one element: all text below it, concatenated in document order |
| Xml.ResultTextSingle | src/main/java/com/xmlservice/XmlParser.java:191 | `text()` of a one-element result is that element's text |
| Xml.ExtractAttribute | src/main/java/com/xmlservice/XmlParser.java:172-185 | the attribute's value when present, else null |
| Xml.ExtractChildText | src/main/java/com/xmlservice/XmlParser.java:187-197 | computes `extractChildText`: null when the node has no child of that name, else `text()` of all such children together |
| Xml.ExtractChildTextSpec | src/main/java/com/xmlservice/XmlParser.java:187-197 | null exactly when there is no child with the name; for a single such child, its text (`""` for an empty element, not null) |
| Xml.ShopNode | src/main/java/com/xmlservice/XmlParser.java:65-84 | computes `getShopNode`: the root's `shop` children if there are any; else the `shop` children of its `yml_catalog` children if there are any; else null |
| Xml.ShopNodeLookup | src/main/java/com/xmlservice/XmlParser.java:65-84 | a direct `shop` child wins; failing that, a `shop` inside a `yml_catalog` child; failing both, null; a shop found is never empty and holds only `shop` elements |
| XmlParser.Extract | src/main/java/com/xmlservice/XmlParser.java:102-111 | the shared parse loop: the per-element steps in document order, where skip adds nothing, emit appends one record and the first abort is the result; never more records than elements |
| XmlParser.SectionElements | src/main/java/com/xmlservice/XmlParser.java:93-100 | computes the elements a parse walks: `getProperty(section).getProperty(item)` on the shop, and none without a shop |
| XmlParser.ExtractProvenance | src/main/java/com/xmlservice/XmlParser.java:102-111 | every record comes from an element that emitted it; an error comes from an aborting element with no aborting element before it |
| XmlParser.ExtractAppend | src/main/java/com/xmlservice/XmlParser.java:102-111 | parsing a concatenation: the first part's error wins, then the second's; otherwise the records are concatenated |
| XmlParser.ExtractStep | src/main/java/com/xmlservice/XmlParser.java:102-111 | one loop iteration after a successful prefix: skip keeps the records, emit appends one, abort is the result of the whole parse |
| XmlParser.ExtractOkIff | src/main/java/com/xmlservice/XmlParser.java:102-111 | a parse succeeds exactly when no element aborts it |
| XmlParser.ExtractLength | src/main/java/com/xmlservice/XmlParser.java:102-111 | on success there is exactly one record per emitting element |
| XmlParser.SkippedElementIsInvisible | src/main/java/com/xmlservice/XmlParser.java:150-168 | removing a skipped element changes neither the records nor their order |
| XmlParser.CurrencyStep | src/main/java/com/xmlservice/XmlParser.java:103-109 | computes one currency iteration: skip without `id` or `rate`; else emit the trimmed id with the trimmed rate read as a decimal, or abort when it is not one |
| XmlParser.CurrencyRules | src/main/java/com/xmlservice/XmlParser.java:103-109 | a currency is skipped exactly when `id` or `rate` is missing; the code is the trimmed id; the rate is the trimmed `rate` read as a decimal; a rate that is not a decimal aborts |
| XmlParser.CategoryStep | src/main/java/com/xmlservice/XmlParser.java:127-133 | computes one category iteration: emit the trimmed id and trimmed text when there is an `id` and the untrimmed text is non-empty, else skip |
| XmlParser.CategoryRules | src/main/java/com/xmlservice/XmlParser.java:127-133 | a category never aborts; it is emitted exactly when it has an `id` and non-empty untrimmed text; both fields are trimmed |
| XmlParser.OfferStep | src/main/java/com/xmlservice/XmlParser.java:151-166 | computes one offer iteration: skip without `id`; abort on a present price that is not a decimal; else emit the trimmed fields, name defaulting to `""` and the other children to null |
| XmlParser.OfferRules | src/main/java/com/xmlservice/XmlParser.java:151-166 | an offer is skipped exactly when `id` is missing. A present price that is not a decimal aborts. The name defaults to `""`. `categoryId`, `price` and `currencyCode` are null exactly when their child is missing. All texts are trimmed |
| XmlParser.CurrenciesOf | src/main/java/com/xmlservice/XmlParser.java:91-113 | computes `parseCurrencies()`: the loop over the shop's `currencies`/`currency` elements with the currency step |
| XmlParser.ParseCurrencies | src/main/java/com/xmlservice/XmlParser.java:91-113 | `parseCurrencies()` equals the specification `CurrenciesOf` |
| XmlParser.CollectCurrencies | src/main/java/com/xmlservice/XmlParser.java:102-111 | the loop over `currency` elements equals `Extract(CurrencyStep, …)` |
| XmlParser.CategoriesOf | src/main/java/com/xmlservice/XmlParser.java:115-137 | computes `parseCategories()`: the loop over the shop's `categories`/`category` elements with the category step |
| XmlParser.ParseCategories | src/main/java/com/xmlservice/XmlParser.java:115-137 | `parseCategories()` equals `CategoriesOf` |
| XmlParser.CollectCategories | src/main/java/com/xmlservice/XmlParser.java:126-135 | the loop over `category` elements equals `Extract(CategoryStep, …)` |
| XmlParser.OffersOf | src/main/java/com/xmlservice/XmlParser.java:139-170 | computes `parseOffers()`: the loop over the shop's `offers`/`offer` elements with the offer step |
| XmlParser.ParseOffers | src/main/java/com/xmlservice/XmlParser.java:139-170 | `parseOffers()` equals `OffersOf` |
| XmlParser.CollectOffers | src/main/java/com/xmlservice/XmlParser.java:150-168 | the loop over `offer` elements equals `Extract(OfferStep, …)` |
| XmlParser.GetTableNames | src/main/java/com/xmlservice/XmlParser.java:52-63 | with no shop, the list is empty. Otherwise it names exactly the sections the shop has (`currencies` reported as `currency`), in the order currency, categories, offers, and nothing else |
| XmlParser.ReportedNames | src/main/java/com/xmlservice/XmlParser.java:57-59 | the three conditional appends list exactly the flagged names, in rank order |
| XmlParser.EmptyWithoutSection | src/main/java/com/xmlservice/XmlParser.java:91-100 | without a shop, every parse yields `[]`; without a section, that section's parse yields `[]`; never more records than elements in any of the three parses |
| XmlParser.CurrenciesOutcome | src/main/java/com/xmlservice/XmlParser.java:102-111 | fails exactly when some currency with both attributes has a rate that is not a decimal, and the error carries that trimmed rate. On success, codes are trimmed and there is one record per currency with both attributes |
| XmlParser.CategoriesOutcome | src/main/java/com/xmlservice/XmlParser.java:126-135 | never fails; ids and names are trimmed; one record per emitting category |
| XmlParser.OffersOutcome | src/main/java/com/xmlservice/XmlParser.java:150-168 | fails exactly when some offer with an `id` has a price that is not a decimal; on success every text field is trimmed; one record per offer with an `id` |
| XmlParser.CatalogWithOneOfferParses | src/main/java/com/xmlservice/XmlParser.java:139-170 | a `yml_catalog` with one offer `V1`, name `Widget` and price `" 9.99 "` parses to one record with price 9.99 (scale 2) and null category and currency |
| XmlParser.ShopAsRootIsNotFound | src/main/java/com/xmlservice/XmlParser.java:65-84 | a document whose root element is `shop` has no shop, and all three parses yield `[]` |
| XmlParser.EmptyPriceAborts | src/main/java/com/xmlservice/XmlParser.java:155-163 | an empty `<price/>` aborts the offers parse with the error for `""` |
| XmlParser.BlankValuesAccepted | src/main/java/com/xmlservice/XmlParser.java:104-132 | a blank currency `id` gives the code `""`; an all-blank category text, if the tree holds one, gives the name `""` |
| TableMetadata.TableOf | src/main/java/com/xmlservice/service/DatabaseService.java:195-199 | exactly `currency`, `categories` and `offers` are known table names |
| TableMetadata.TableNameRoundTrip | src/main/java/com/xmlservice/service/DatabaseService.java:19-29 | table names and tables correspond one to one |
| TableMetadata.Columns | src/main/java/com/xmlservice/service/DatabaseService.java:23-25 | computes `TABLE_COLUMNS`: the expected columns of each table, in declaration order |
| TableMetadata.IdColumn | src/main/java/com/xmlservice/service/DatabaseService.java:27-29 | computes `TABLE_ID_COLUMNS`: the identity column of each table |
| TableMetadata.IdColumnIsFirst | src/main/java/com/xmlservice/service/DatabaseService.java:19-29 | each table's identity column is its first expected column, and its expected columns are pairwise distinct |
| TableMetadata.GetColumnNames | src/main/java/com/xmlservice/service/DatabaseService.java:185-188 | fails with `Unknown(name)` exactly for an unknown name; otherwise yields that table's expected columns |
| TableMetadata.IsColumnId | src/main/java/com/xmlservice/service/DatabaseService.java:190-193 | fails exactly for an unknown name; otherwise true exactly for the identity column (case-sensitive) |
| TableMetadata.IdColumnIsListed | src/main/java/com/xmlservice/service/DatabaseService.java:185-193 | a column `isColumnId` accepts is the first of the table's `getColumnNames` |
| TableMetadata.Ddl | src/main/java/com/xmlservice/service/DatabaseService.java:49-71 | computes the `CREATE TABLE IF NOT EXISTS` statement of a table: one line per column with its type and constraints, then its foreign keys |
| TableMetadata.DdlDeclaresColumns | src/main/java/com/xmlservice/service/DatabaseService.java:49-71 | each statement declares exactly the expected columns, in order, and the primary key is the identity column and nothing else |
| TableMetadata.ForeignKeysReferenceIds | src/main/java/com/xmlservice/service/DatabaseService.java:68-69 | only `offers` has foreign keys: its currency and category columns reference the identity columns of `currency` and `categories` |
| TableMetadata.GetTableDDL | src/main/java/com/xmlservice/service/DatabaseService.java:45-74 | fails with `Unknown(name)` exactly for an unknown name |
| TableMetadata.DdlCreatesNamedTable | src/main/java/com/xmlservice/service/DatabaseService.java:49-71 | each statement starts with `CREATE TABLE IF NOT EXISTS <name> (` for the requested name |
| TableMetadata.DdlLinesStartWithColumns | src/main/java/com/xmlservice/service/DatabaseService.java:49-71 | line i of the statement body declares expected column i |
| Database.Upserted | src/main/java/com/xmlservice/service/DatabaseService.java:116-128 | computes a table after the batch's `INSERT … ON CONFLICT (key) DO UPDATE` statements run in order: each record sets the row of its key to its other columns |
| Database.UpsertedKeys | src/main/java/com/xmlservice/service/DatabaseService.java:116-128 | an upsert batch deletes no row, and adds exactly the batch's keys |
| Database.UpsertedKeepsOthers | src/main/java/com/xmlservice/service/DatabaseService.java:116-128 | rows whose key the batch does not write keep their values |
| Database.UpsertedLastWins | src/main/java/com/xmlservice/service/DatabaseService.java:116-128 | each key holds the value of the last record in the batch with that key |
| Database.UpsertedIdempotent | src/main/java/com/xmlservice/service/DatabaseService.java:116-128 | running the same batch twice is the same as running it once |
| Database.OfferUpsertOverwritesAll | src/main/java/com/xmlservice/service/DatabaseService.java:158-177 | an offer upsert sets all four non-key columns from the last record with that vendor code, null fields included |
| Database.CreateAll | src/main/java/com/xmlservice/service/DatabaseService.java:76-87 | computes `createTables` on the set of tables: each known name adds its table, in order; the first unknown name stops the run with `Unknown(name)` |
| Database.CreateAllPasses | src/main/java/com/xmlservice/service/DatabaseService.java:76-87 | creation passes exactly when every name is known, and then adds exactly the named tables |
| Database.CreateAllFails | src/main/java/com/xmlservice/service/DatabaseService.java:76-87 | otherwise it fails on the first unknown name, keeping the tables named before it |
| Database.CreateAllIdempotent | src/main/java/com/xmlservice/service/DatabaseService.java:76-87 | creation never drops a table, and running the same list again changes nothing |
| Database.LowerAll | src/main/java/com/xmlservice/service/DatabaseService.java:94-97 | the reported column names, each lower-cased, in the same order and number |
| Database.TableCheck | src/main/java/com/xmlservice/service/DatabaseService.java:99-100 | computes one table's check as written: `NullExpectedColumns` for an unknown name; pass when every expected column, as declared, is among the given ones; else `SchemaMismatch` |
| Database.CheckReported | src/main/java/com/xmlservice/service/DatabaseService.java:93-100 | computes the check of one table against the columns the database reports for it, lower-cased |
| Database.StructureCheck | src/main/java/com/xmlservice/service/DatabaseService.java:89-111 | computes `validateDatabaseStructure`: the tables' checks in list order, stopping at the first failure |
| Database.StructureCheckPasses | src/main/java/com/xmlservice/service/DatabaseService.java:89-111 | the structure check passes exactly when every listed table passes its own check |
| Database.StructureCheckFirstFailure | src/main/java/com/xmlservice/service/DatabaseService.java:89-111 | otherwise the error is that of the first failing table |
| Database.TableCheckIgnoresOrderAndExtras | src/main/java/com/xmlservice/service/DatabaseService.java:94-100 | column order and extra reported columns do not matter; a known table that reports no columns fails |
| Database.OffersNeverValidates | src/main/java/com/xmlservice/service/DatabaseService.java:96-100 | as written, any list naming `offers` fails the check, whatever columns the database reports |
| Database.OffersTableCheckFails | src/main/java/com/xmlservice/service/DatabaseService.java:96-100 | the `offers` check alone fails for every reported column list |
| Database.TableCheckIgnoringCase | src/main/java/com/xmlservice/service/DatabaseService.java:99-100 | the corrected check of one table: like `TableCheck`, with column names compared after lower-casing both sides |
| Database.StructureCheckIgnoringCase | src/main/java/com/xmlservice/service/DatabaseService.java:89-111 | the corrected structure check: the corrected table checks in list order, stopping at the first failure |
| Database.CorrectedTableCheckAccepts | src/main/java/com/xmlservice/service/DatabaseService.java:94-100 | the case-insensitive check accepts a table reporting its declared columns, as declared or lower-cased |
| Database.CorrectedCheckAcceptsDeclaredColumns | src/main/java/com/xmlservice/service/DatabaseService.java:89-111 | the case-insensitive check passes for every list of known tables that report their declared columns |
| Database.OffersCheckCounterexample | src/main/java/com/xmlservice/service/DatabaseService.java:96-100 | for `["offers"]` reporting exactly its declared columns, the as-written check fails and the corrected one passes |
| Database.LowerColumns | src/main/java/com/xmlservice/service/DatabaseService.java:94-97 | the collected column names are the reported ones, each lower-cased, in order |
| Database.DatabaseService.constructor | src/main/java/com/xmlservice/service/DatabaseService.java:32-36 | a service attached to a destination holding the given tables and rows, where rows are only in tables that exist |
| Database.DatabaseService.CreateTables | src/main/java/com/xmlservice/service/DatabaseService.java:76-87 | the new tables and the outcome are those of `CreateAll`; no row changes |
| Database.DatabaseService.ValidateDatabaseStructure | src/main/java/com/xmlservice/service/DatabaseService.java:89-111 | the outcome is the structure check of the reported columns |
| Database.DatabaseService.UpsertCurrencies | src/main/java/com/xmlservice/service/DatabaseService.java:113-132 | an empty list changes nothing. A missing table fails and changes nothing. Otherwise `currency` becomes `Upserted(old rows, batch)`. The other tables are untouched, and a missing table holds no row afterwards |
| Database.DatabaseService.UpsertCategories | src/main/java/com/xmlservice/service/DatabaseService.java:134-153 | the same for `categories`, keyed by `category_id` |
| Database.DatabaseService.UpsertOffers | src/main/java/com/xmlservice/service/DatabaseService.java:155-182 | the same for `offers`, keyed by `vendorCode` with all four other columns replaced |

## Findings

| source | as written | input that shows it | evidently intended | confidence | as-written member | corrected member |
|---|---|---|---|---|---|---|
| src/main/java/com/xmlservice/service/DatabaseService.java:96-100 | reported column names are lower-cased, then compared case-sensitively with the expected names, which include `vendorCode` | `validateDatabaseStructure(["offers"])` on the table its own DDL created (however the database reports `vendorCode`, it becomes `vendorcode`) | compare without regard to case, so a table that has its declared columns passes | not executed | Database.OffersNeverValidates | Database.CorrectedCheckAcceptsDeclaredColumns |

The rest of the model uses the as-written check, because
`ValidateDatabaseStructure` models the method as it stands. The corrected
check is `StructureCheckIgnoringCase`. `OffersCheckCounterexample` shows
that the two checks differ.

## Left out

- Loading the document (`loadXml`, `getXmlRoot` and its cache, XmlParser.java:26-50) is I/O. The model starts from an already-parsed element tree. The loader drops whitespace-only text nodes (`XmlSlurper` does not keep ignorable whitespace by default), so a category whose text is all blanks does not occur in the running program. The model's trees may hold such text.
- The `instanceof GPathResult` / `NodeChild` tests always hold for the plain names used, so they are not modelled. The `catch` blocks that print a stack trace cannot be reached from a tree, so they are not modelled either.
- JDBC: connections, statements, result sets, `SQLException` messages and the text of the thrown exceptions are not modelled. A write into a missing table is one abstract failure, `WriteFailed`.
- Decimals.ParseDecimal: exponent notation (`1E3`) and non-ASCII digits, which `BigDecimal` accepts, are rejected in the model.
- JavaString.ToLower: only ASCII letters are lowered. `toLowerCase()` also lowers other scripts and is locale-sensitive.
- TableMetadata.GetTableDDL: the statement is rendered from a column and foreign-key table. The proofs cover its header, its column order and its keys. They do not show it equal, character for character, to the text blocks at DatabaseService.java:49-71.
- Column types are not enforced: `NUMERIC(18,6)` and `NUMERIC(18,2)` rounding, `VARCHAR` length limits and `NOT NULL` on insert are not modelled.
- Foreign keys are not enforced: an offer whose category or currency does not exist is stored.
- A batch that fails part-way in the database is not modelled. A batch either applies completely or, when its table is missing, not at all.
- `metaData.getColumns` treats the table name as a LIKE pattern, which is not modelled. The reported columns per table are a parameter.
- The callers (`Main`, `CommandHandler`, `InteractiveMenu`) and the configuration are not part of this model.
