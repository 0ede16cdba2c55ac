# laws storage engine, modelled in Dafny

This project models the storage engine of `laws`, a small document store. A **database**
holds **tables** under their names. A table has a partition key and a sort key. Each key is a
field name plus a key datatype: Null, Boolean, SignedInt, UnsignedInt or String. The table
keeps a two-level map: partition value → (sort value → JSON document). Documents are
created (upserted), read, shallow-merged (updated) and deleted at the address their own key
fields give. At start-up the database is rebuilt from a JSON snapshot, or it starts empty.
`save` produces the snapshot again.

Modules, one per source module:

- `Json` (json.dfy): the JSON values the code passes around. Covers serde's `get`,
  `value[field]`, `is_i64` and `is_u64`, and `NULL_VAL`.
- `Errors` (errors.dfy): `DbError` and how it is rendered.
- `Validation` (validation.dfy): `check_string_fields_exist`. It also holds
  `check_key_fields_exist`, which the code calls but does not define (see below).
- `DbKeys` (db_keys.dfy): `KeyDatatype` and its conversions, equality and order, plus
  `validate` and `extract_key`.
- `Tables` (table.dfy): the table. Each operation is first a function on an abstract
  `TableState`. The class `Table` then implements it in place, and each method is proved
  to agree with its function.
- `Databases` (database.dfy): the database, built the same way. There are step functions on
  `DbState` (a map from name to `TableState`), and the class `Database` holds table objects
  plus a ghost `model`.

Behaviours of the code that the model keeps on purpose:

- **The key datatype comes from the key's name.** `Table::new` derives the datatype with
  `from_str` applied to the descriptor's `name`, not to its `datatype`. So a key named `id`
  has datatype Null. When neither key name is one of the words `Boolean`,
  `SignedInt`, `UnsignedInt` or `String`, every document extracts to the address
  (Null, Null), and such a table holds at most one document. When only one name is
  ordinary, that key alone is Null and the table can hold many documents. `Tables.OrdinaryNamesKeyByNull` states this.
- **Equality and order panic across variants.** The comparisons panic when the two values
  have different variants. In the model they require `SameVariant`. The table invariant
  `Wellformed` shows that a table only ever compares keys of one variant.
- **`update_document` can panic.** It unwraps the stored document, then unwraps that
  document's object view. These are preconditions (`Tables.UpdateDefined`). In a
  well-formed table the only reachable panic is a missing document in an existing partition.
- **A snapshot that is not an array cold-starts.** `Database::load` binds the parsed
  snapshot with an irrefutable-looking `let Value::Array(..)`. That pattern has no branch
  for other values, so here such a snapshot is treated like an unreadable one.
- **The filesystem is an input or an output.** Whether the snapshot file exists and can be
  opened, read and parsed becomes the `Snapshot` input of `load`. `save` returns the array
  it would write, and `cold_start` does not touch a directory.
- **A reload drops emptied partitions.** Deleting a document leaves its partition in place,
  even when the partition is then empty. Reloading a saved snapshot rebuilds every table
  with every document, but without those emptied partitions (`Pruned`).
- **`check_key_fields_exist` is modelled.** The code calls it but does not define it. It
  is modelled as: each listed field present (else MissingFields) and an object (else
  BadInput), holding string `name` and `datatype` fields.

Iteration order:

- A `HashMap` yields its keys in no fixed order. The model picks keys with `:|` and the
  contracts hold for every order.
- A `BTreeMap` yields its keys in ascending order. The model picks the least remaining key
  by `Cmp`.

## Model

| member | source | states |
|---|---|---|
| Json.Get | src/table/mod.rs:34-37 | serde `get`: a value exactly when the value is an object with that field, and then it is that field |
| Json.Index | src/validation/mod.rs:3-6 | serde `value[field]`: the field when `get` finds one, JSON null otherwise and for every non-object |
| Json.Value.IsI64 | src/db_keys/mod.rs:226-228 | serde `is_i64`, the test `validate` applies for a SignedInt key: an integer in [-2^63, 2^63); floats and everything else fail |
| Json.Value.IsU64 | src/db_keys/mod.rs:229-231 | serde `is_u64`, the test `validate` applies for an UnsignedInt key: an integer in [0, 2^64); floats and everything else fail |
| Errors.Message | src/errors/mod.rs:9-25 | the rendering is the kind's fixed prefix followed by the detail text, and nothing else |
| Errors.Prefix | src/errors/mod.rs:12-23 | the fixed text each error kind starts with |
| Errors.ParseMessage | src/errors/mod.rs:9-25 | reading a rendering back: whatever it recovers renders to the text it read |
| Errors.Display | src/errors/mod.rs:28-32 | `Display` renders an error so that parsing gives the same error back |
| Errors.Debug | src/errors/mod.rs:34-38 | `Debug` prints exactly what `Display` prints |
| Errors.MessageParses | src/errors/mod.rs:9-25 | parsing the message of any error gives that error back |
| Errors.MessageInjective | src/errors/mod.rs:9-25 | two errors with the same message are the same error, kind and detail |
| Validation.CheckStringFieldsExist | src/validation/mod.rs:1-10 | succeeds iff every listed field is a JSON string; otherwise it reports the first failing field, MissingFields for absent or null and BadInput for any other kind |
| Validation.FieldFailure | src/validation/mod.rs:3-7 | one field's outcome: MissingFields when absent or null, BadInput when not a string |
| Validation.FirstFailingShifts | src/validation/mod.rs:2-8 | past a leading string field, the first failing field of the rest is the first failing field overall |
| Validation.NonObjectMissesFirstField | src/validation/mod.rs:3-5 | a payload that is not an object fails on the first field, as missing |
| Validation.CheckKeyFieldsExist | src/table/mod.rs:14 | succeeds iff every listed key descriptor is an object with string `name` and `datatype` |
| DbKeys.ToStr | src/db_keys/mod.rs:13-22 | the wire name is "Null" exactly for Null, and one of the four datatype words otherwise |
| DbKeys.ToInt | src/db_keys/mod.rs:24-33 | the tag is one of 0, 1, 2, 3, 5, and 0 exactly for Null |
| DbKeys.FromInt | src/db_keys/mod.rs:35-44 | tags 1, 2, 3 and 5 give the variant with that tag; every other byte gives Null; payloads are zero values |
| DbKeys.FromStr | src/db_keys/mod.rs:46-55 | the four datatype words give the variant of that name; every other string, "Null" included, gives Null; payloads are zero values |
| DbKeys.StrRoundTrip | src/db_keys/mod.rs:13-55 | naming a datatype and reading the name back keeps its variant, and is the identity on zero payloads |
| DbKeys.IntRoundTrip | src/db_keys/mod.rs:24-44 | tagging a datatype and reading the tag back keeps its variant, and is the identity on zero payloads |
| DbKeys.Eq | src/db_keys/mod.rs:60-101 | within one variant, equality holds exactly when the two key values are equal |
| DbKeys.SameVariant | src/db_keys/mod.rs:60-101 | the two key values have the same variant (equal `to_int` tags); `eq` and `cmp` panic in every other case, so the model makes it their precondition |
| DbKeys.StrCmp | src/db_keys/mod.rs:179-183 | `String::cmp`: Equal iff the strings are equal, Less iff lexicographically smaller, Greater iff larger |
| DbKeys.LexLessEmpty | src/db_keys/mod.rs:179-183 | the empty string precedes exactly the non-empty strings, and nothing precedes it |
| DbKeys.LexLessHead | src/db_keys/mod.rs:179-183 | strings whose first characters differ are ordered by those characters |
| DbKeys.LexLessTail | src/db_keys/mod.rs:179-183 | strings with the same first character are ordered by their tails |
| DbKeys.Cmp | src/db_keys/mod.rs:146-187 | within one variant: Equal iff equal; false before true; numeric order for integers; lexicographic order for strings |
| DbKeys.CmpAntisymmetric | src/db_keys/mod.rs:146-187 | swapping the operands reverses the ordering |
| DbKeys.StrCmpTransitive | src/db_keys/mod.rs:179-183 | the string order is transitive |
| DbKeys.CmpTransitive | src/db_keys/mod.rs:146-187 | Less is transitive within a variant |
| DbKeys.MinimumExists | src/db_keys/mod.rs:146-187 | a non-empty finite set of key values of one variant has a least element |
| DbKeys.LeastByCmp | src/db_keys/mod.rs:146-187 | that least element compares Less or Equal with every element, so an ascending walk meets it first |
| DbKeys.Validate | src/db_keys/mod.rs:217-239 | a non-object payload gives BadInput; a Null datatype accepts any object; any other failure is the MissingFields type-mismatch error naming the field and the datatype's word |
| DbKeys.ValidateAcceptsFittingField | src/db_keys/mod.rs:221-237 | on an object and a non-Null datatype, validation succeeds exactly when the key field holds a JSON boolean, 64-bit signed integer, 64-bit unsigned integer or string as the datatype asks |
| DbKeys.TypeMismatch | src/db_keys/mod.rs:224-236 | the type-mismatch error of `validate`: MissingFields naming the field and the datatype's word |
| DbKeys.KeyToJson | src/db_keys/mod.rs:246-253 | the JSON value each key value is read from |
| DbKeys.FieldFits | src/db_keys/mod.rs:224-236 | the key field holds the JSON image of a value of the datatype's variant |
| DbKeys.ExtractKey | src/db_keys/mod.rs:242-254 | succeeds exactly on an object whose key field holds a value of the key's variant (any object for Null); the result has that variant and is the field's own value |
| Tables.PrimaryKeyCheckedFirst | src/table/mod.rs:76-84 | when the partition key cannot be extracted, its error is the one reported |
| Tables.ExtractPair | src/table/mod.rs:76-84 | the partition key is extracted first, then the sort key; the first error is returned |
| Tables.WellKeyed | src/table/mod.rs:85-87 | every stored document sits at the address its own key fields give, in keys of the declared variants |
| Tables.Wellformed | src/table/mod.rs:15-26 | the table invariant: key datatypes follow the key names, and the data is well keyed |
| Tables.Lookup | src/table/mod.rs:101-110 | the document at an address, or null when the partition or the sort key is absent |
| Tables.Insert | src/table/mod.rs:85-87 | get-or-create the partition, then store the document at the sort value; every other address is unchanged |
| Tables.Remove | src/table/mod.rs:142-146 | the document at the address is gone, the partition stays, and every other address is unchanged |
| Tables.ShallowMerge | src/table/mod.rs:126-129 | the patch's fields overwrite or are added; the stored document's other fields stay |
| Tables.Patch | src/table/mod.rs:122-129 | the merged document replaces the stored one at the address; every other address is unchanged |
| Tables.CreateStep | src/table/mod.rs:75-89 | key errors are returned and change nothing; otherwise a read of that address gives the document, the partitions are the old ones plus the document's, nothing else changes, and null is returned |
| Tables.ReadStep | src/table/mod.rs:91-111 | key errors are returned; otherwise the document stored at the payload's address, or null when the partition or the sort key is absent |
| Tables.UpdateDefined | src/table/mod.rs:122-126 | the condition under which `update_document` does not panic |
| Tables.UpdatePanicsOnlyOnMissingDocument | src/table/mod.rs:122-126 | in a well-formed table, the update panics only when the partition exists and the document does not |
| Tables.UpdateStep | src/table/mod.rs:112-131 | key errors change nothing; with no such partition nothing changes; otherwise the stored document becomes the shallow merge, the partitions stay, the rest is unchanged, and null is returned |
| Tables.DeleteStep | src/table/mod.rs:132-148 | key errors change nothing; otherwise the address reads as null, partitions stay, the rest is unchanged, and null is returned |
| Tables.ReadAfterCreate | src/table/mod.rs:75-111 | reading with the keys of a created document returns that document |
| Tables.ReadUnaffectedByOtherCreate | src/table/mod.rs:75-111 | a create at other keys leaves every read as it was |
| Tables.CreateIdempotent | src/table/mod.rs:75-89 | creating the same document twice is the same as creating it once |
| Tables.CreateOverwrites | src/table/mod.rs:85-87 | a second create at the same address replaces the first document entirely |
| Tables.ReadAfterDelete | src/table/mod.rs:91-148 | after a delete, reading the same address gives null |
| Tables.ExtractKeyFromField | src/db_keys/mod.rs:242-254 | two objects with the same key field extract the same key |
| Tables.MergeKeepsAddress | src/table/mod.rs:126-129 | merging a payload into the document at its own address keeps the merged document at that address |
| Tables.InsertKeepsWellKeyed | src/table/mod.rs:85-87 | storing a document at its own keys keeps every document at its own address |
| Tables.RemoveKeepsWellKeyed | src/table/mod.rs:142-146 | removing a document keeps every document at its own address |
| Tables.PatchKeepsWellKeyed | src/table/mod.rs:122-129 | merging a payload into a stored document keeps every document at its own address |
| Tables.StepsPreserveWellformed | src/table/mod.rs:75-148 | create, delete and (non-panicking) update keep a table well formed |
| Tables.FailedExtractionChangesNothing | src/table/mod.rs:75-148 | when the keys cannot be extracted, no operation changes the table, and update does not panic |
| Tables.OrdinaryNamesKeyByNull | src/table/mod.rs:17-24 | with key names that are not datatype words, every stored key is Null, so the table holds at most one document |
| Tables.LoadDocs | src/table/mod.rs:41-49 | loading succeeds iff every document's keys extract; what it builds is well keyed |
| Tables.BulkLoad | src/table/mod.rs:33-50 | a missing `data` field gives MissingFields, a non-array gives BadInput, and an array is loaded in order |
| Tables.LoadDocsLast | src/table/mod.rs:43-48 | a successful load of a list is the load of its front, then one insertion of its last document |
| Tables.LoadDocsFirstFailure | src/table/mod.rs:43-45 | a failed load reports the error of the first document whose keys do not extract |
| Tables.LoadDocsUnfold | src/table/mod.rs:43-48 | one loop iteration of the load, written out |
| Tables.LoadDocsFailureSticks | src/table/mod.rs:44-45 | once a prefix fails to load, the whole list fails with the same error |
| Tables.LoadKeepsLastDocument | src/table/mod.rs:43-48 | a loaded document is stored at its address unless a later one has the same address |
| Tables.LoadStoresOnlyListed | src/table/mod.rs:43-48 | every stored document is one of the listed documents, at that document's own address |
| Tables.LoadedPartitionsNonEmpty | src/table/mod.rs:46-47 | a bulk load never creates an empty partition |
| Tables.DescriptorKey | src/table/mod.rs:17-24 | the key is named by the descriptor's name, and its datatype is `from_str` of that name |
| Tables.NewTable | src/table/mod.rs:12-31 | name and key-descriptor errors are returned in order; otherwise the table is well formed, is named and keyed as the payload says, and holds the bulk load (or nothing if that load fails) |
| Tables.DocsAt | src/table/mod.rs:55-60 | the documents at the listed addresses, one for each |
| Tables.ListsInTableOrder | src/table/mod.rs:53-60 | the orders `read_table` may list documents in: every stored address once, partitions in any order, sort keys ascending within a partition |
| Tables.IsRendering | src/table/mod.rs:52-73 | the outputs `read_table` may return: the rendering of the table with its documents in one of those orders |
| Tables.ListedOnce | src/table/mod.rs:52-73 | `read_table` lists no address twice |
| Tables.AppendRun | src/table/mod.rs:55-60 | appending a whole partition's ascending run extends a valid partial listing |
| Tables.ExtendRun | src/table/mod.rs:57-59 | taking the least remaining sort key extends an ascending run |
| Tables.SortKeysOneVariant | src/table/mod.rs:57-59 | in a well-keyed table every sort value has the sort key's variant, so the ordered walk's comparisons cannot panic |
| Tables.ListPartition | src/table/mod.rs:56-59 | the walk over one partition lists all its documents in ascending sort-key order |
| Tables.ListData | src/table/mod.rs:53-60 | the walk over all partitions lists every stored document once, partition by partition, ascending within each |
| Tables.ExtendListing | src/table/mod.rs:55-60 | listing one more partition keeps the listing valid and appends that partition's documents |
| Tables.Pruned | src/table/mod.rs:132-148 | the data without its emptied partitions |
| Tables.LoadListing | src/table/mod.rs:33-73 | loading the documents of a `read_table` listing rebuilds the data, less emptied partitions |
| Tables.RenderPassesChecks | src/table/mod.rs:12-14 | the object `read_table` returns passes the name and key checks of `Table::new` |
| Tables.KeyDescriptor | src/table/mod.rs:63-70 | a key's descriptor object: its name and the word for its datatype |
| Tables.Render | src/table/mod.rs:61-72 | the object `read_table` returns: name, both key descriptors and the document array |
| Tables.NewTableOfRender | src/table/mod.rs:12-73 | `Table::new` on a rendered table restores its name and keys and loads its documents |
| Tables.ReloadRendering | src/table/mod.rs:12-73 | any output of `read_table`, given to `Table::new`, gives the same table back, less emptied partitions |
| Tables.Table.New | src/table/mod.rs:12-31 | the table object is fresh, valid, and has exactly the state `NewTable` describes (or the same error) |
| Tables.Table.constructor | src/table/mod.rs:15-26 | the struct literal: the given name and keys and no data; with keys whose datatype follows their name, the object is valid |
| Tables.Table.Load | src/table/mod.rs:33-50 | the loop computes exactly `BulkLoad` |
| Tables.Table.ReadTable | src/table/mod.rs:52-73 | the result renders the table's name, keys and every document in a valid `read_table` order |
| Tables.Table.CreateDocument | src/table/mod.rs:75-89 | result and new state are those of `CreateStep`, and the table stays valid |
| Tables.Table.ReadDocument | src/table/mod.rs:91-111 | the result is that of `ReadStep` |
| Tables.Table.UpdateDocument | src/table/mod.rs:112-131 | result and new state are those of `UpdateStep`, and the table stays valid |
| Tables.Table.DeleteDocument | src/table/mod.rs:132-148 | result and new state are those of `DeleteStep`, and the table stays valid |
| Tables.MergeFields | src/table/mod.rs:127-129 | the field-by-field insertion loop computes the shallow merge |
| Databases.WellformedAt | src/database/mod.rs:54-62 | scaffolding: unfolds the invariant at one name, giving that table well formed and named by its key |
| Databases.DbWellformed | src/database/mod.rs:54-62 | the database invariant: every table is well formed and stored under its own name |
| Databases.WellformedPut | src/database/mod.rs:61 | filing a well-formed table under its own name keeps the database well formed |
| Databases.WellformedDrop | src/database/mod.rs:118-122 | removing a table keeps the database well formed |
| Databases.BuildTables | src/database/mod.rs:54-62 | the build succeeds iff every definition constructs, and it gives a well-formed database |
| Databases.LoadState | src/database/mod.rs:19-68 | an unreadable snapshot, a non-array or a failing definition gives the empty database; otherwise the build; always well formed |
| Databases.BuildTablesUnfold | src/database/mod.rs:54-62 | one iteration of the `load` loop, written out |
| Databases.BuildTablesLast | src/database/mod.rs:54-62 | a successful build is the build of the front, then one insertion of the last table |
| Databases.BuildKeepsLastDefinition | src/database/mod.rs:61 | with several definitions of one name, the last one wins |
| Databases.BuildOnlyListed | src/database/mod.rs:54-62 | every built table is constructed by one of the definitions |
| Databases.CreateTableStep | src/database/mod.rs:98-103 | a construction error is returned and changes nothing; otherwise the new table replaces any of its name, the others are unchanged, and null is returned |
| Databases.DeleteTableStep | src/database/mod.rs:118-122 | the name is gone, the other tables are unchanged, and null is returned even for an absent name |
| Databases.DocStep | src/database/mod.rs:125-160 | an absent name gives TableNotFound and changes nothing; otherwise the named table's own operation, on that table alone |
| Databases.NoSuchTable | src/database/mod.rs:105-114 | the constant error of every by-name operation on an absent name: TableNotFound, shown as "Table Not Found! Table does not exist" |
| Databases.DocOpDefined | src/table/mod.rs:112-131 | a document operation does not panic: only an update can, and only where `UpdateDefined` fails |
| Databases.TableDocStep | src/table/mod.rs:75-148 | the table-level step each document operation takes |
| Databases.StepOnTable | src/database/mod.rs:125-160 | a table-level create, update or delete is the database step on that name, and keeps the database well formed |
| Databases.ReadTableResult | src/database/mod.rs:105-114 | TableNotFound for an absent name, otherwise a rendering of that table |
| Databases.DocStepOnTable | src/database/mod.rs:125-160 | a database document operation is the table's operation, filed back under the name |
| Databases.TableStepsPreserveWellformed | src/database/mod.rs:98-122 | `create_table` and `delete_table` keep the database well formed |
| Databases.DocStepPreservesWellformed | src/database/mod.rs:125-160 | document operations keep the database well formed |
| Databases.DeletedTableNotFound | src/database/mod.rs:105-160 | after `delete_table`, every by-name operation on that name reports TableNotFound |
| Databases.ReadCreatedTable | src/database/mod.rs:98-114 | reading a just-created table lists exactly a rendering of the new table |
| Databases.CreateTableReplaces | src/database/mod.rs:98-103 | of two `create_table`s of one name, the second wins outright |
| Databases.ListsEachOnceAppend | src/database/mod.rs:89-91 | listing one more pending name keeps each name listed once |
| Databases.ListsEachOnceCount | src/database/mod.rs:88 | a list of each name once is as long as there are names |
| Databases.NameValues | src/database/mod.rs:89-94 | the JSON strings of the names, one for each, in order |
| Databases.NamesListing | src/database/mod.rs:92-94 | the object `read_db` returns: the names under `tables` |
| Databases.PrunedDb | src/database/mod.rs:162-171 | each table without its emptied partitions |
| Databases.IsSnapshot | src/database/mod.rs:162-171 | an array with one rendering per table, each table once, in any order |
| Databases.SaveLoadRoundTrip | src/database/mod.rs:19-68 | loading a snapshot that `save` produced rebuilds the database, less emptied partitions |
| Databases.BuildListed | src/database/mod.rs:54-62 | building the renderings of every table, each listed once, gives the pruned database |
| Databases.SnapshotItemsReload | src/database/mod.rs:162-171 | each rendering in a snapshot reconstructs its table, less emptied partitions |
| Databases.Constructions | src/database/mod.rs:55-56 | one construction outcome per definition |
| Databases.ConstructionAt | src/database/mod.rs:55-56 | entry `i` is what definition `i` constructs |
| Databases.Assemble | src/database/mod.rs:54-62 | filing construction outcomes in order succeeds iff every outcome succeeded |
| Databases.BuildIsAssemble | src/database/mod.rs:54-62 | building the definitions is filing their construction outcomes |
| Databases.AssembleListed | src/database/mod.rs:54-62 | filing tables that list each name of a database once gives that database |
| Databases.AssemblePrefix | src/database/mod.rs:54-62 | filing tables gives exactly the listed names, each with its table |
| Databases.ConstructTables | src/database/mod.rs:53-62 | the loop on table objects succeeds iff the build does, and then its objects have the built states |
| Databases.BuildExtends | src/database/mod.rs:55-61 | a constructed definition extends the build of the definitions before it |
| Databases.BuildFailsAt | src/database/mod.rs:56-58 | a definition that fails to construct fails the whole build |
| Databases.Database.TablesDistinct | src/database/mod.rs:3-6 | distinct names hold distinct table objects |
| Databases.Database.constructor | src/database/mod.rs:64-67 | the struct literal: the given tables and directory; given tables whose states are a well-formed model, the object is valid |
| Databases.Database.ColdStart | src/database/mod.rs:70-79 | a fresh, valid, empty database |
| Databases.Database.Load | src/database/mod.rs:19-68 | a fresh, valid database whose tables are exactly `LoadState` of the snapshot |
| Databases.Database.ReadDb | src/database/mod.rs:85-95 | the `tables` array lists every table name exactly once |
| Databases.Database.CreateTable | src/database/mod.rs:98-103 | result and new tables are those of `CreateTableStep`, and the database stays valid |
| Databases.Database.ReadTable | src/database/mod.rs:105-114 | TableNotFound for an absent name, otherwise a rendering of that table |
| Databases.Database.DeleteTable | src/database/mod.rs:118-122 | result and new tables are those of `DeleteTableStep`, and the database stays valid |
| Databases.Database.CreateDocument | src/database/mod.rs:125-133 | result and new tables are those of `DocStep` for a create |
| Databases.Database.ReadDocument | src/database/mod.rs:134-142 | the result is that of `DocStep` for a read, and nothing changes |
| Databases.Database.UpdateDocument | src/database/mod.rs:143-151 | result and new tables are those of `DocStep` for an update |
| Databases.Database.DeleteDocument | src/database/mod.rs:152-160 | result and new tables are those of `DocStep` for a delete |
| Databases.Database.Save | src/database/mod.rs:162-171 | the snapshot is an array holding one `read_table` rendering of each table, each table once |

## Left out

- Filesystem I/O. The existence checks, open, read and parse steps of `load` become the
  `Snapshot` input. The directory and file that `cold_start` recreates, and the file write
  of `save`, are not modelled.
- JSON text. Parsing and serialising text with serde is not modelled; snapshots are JSON
  values. Floating-point JSON numbers are an opaque `JFloat` that no key accepts.
- Concurrency. The `Arc`/`RwLock` guards and `async` are left out; every operation runs
  alone, as one atomic step.
- The disabled `Float` key variant, and `Hash for KeyDatatype`. Hashing only places keys in
  buckets; the model's maps use key equality.
- `partial_cmp` (src/db_keys/mod.rs:103-144) has no member of its own. For every payload
  type here it is `Some` of `cmp`, so `DbKeys.Cmp` stands for both.
- `Database::new` (src/database/mod.rs:81-83) only calls `load`, so `Databases.Database.Load`
  stands for it.
- `update_table` (src/database/mod.rs:116) has no body (`todo!()`), so it is not modelled.
- The HTTP server, the storage and data-structure modules, and the library root are not
  part of this model.
- `save` unwraps each table's `read_table` result. That result is always `Ok`, so there is
  no panic to model.
- `Tables.UpdateStep`: the panicking unwraps of `update_document` are preconditions
  (`UpdateDefined`), so the model says nothing about those calls.
- `Databases.Database.UpdateDocument`: the same precondition, for the named table.
