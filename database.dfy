/** The database: tables under their names, the start-up policy that rebuilds them from a
    snapshot (or starts empty), the operations that find a table by name and delegate to it,
    and the snapshot `save` writes. As for tables, the first half states the operations as
    functions on an abstract state; the class `Database` implements them on table objects. */
module Databases {

  import opened Wrappers
  import opened Json
  import opened Errors
  import opened DbKeys
  import opened Tables

  /** The abstract state: the state of each table, under its name. */
  type DbState = map<string, TableState>

  /** What the filesystem steps of `load` come to: the snapshot file was missing or could not
      be opened, read or parsed, or it parsed to a JSON value. */
  datatype Snapshot = Unreadable | Parsed(contents: Value)

  /** The error of every by-name operation on a name with no table, as a client sees it. */
  function NoSuchTable(): (e: DbError)
    ensures e.TableNotFound? && Message(e) == "Table Not Found! Table does not exist"
  {
    TableNotFound("Table does not exist")
  }

  /** Every table sits under its own name and is well formed. */
  ghost predicate DbWellformed(db: DbState) {
    forall n {:trigger NamedWellformed(db, n)} :: n in db ==> NamedWellformed(db, n)
  }

  /** The table under `n` is well formed and named `n`. */
  ghost predicate NamedWellformed(db: DbState, n: string)
    requires n in db
  {
    db[n].name == n && Wellformed(db[n])
  }

  lemma WellformedAt(db: DbState, n: string)
    requires DbWellformed(db) && n in db
    ensures db[n].name == n && Wellformed(db[n])
  {
    assert NamedWellformed(db, n);
  }

  /** Putting a well formed table under its own name keeps a database well formed. */
  lemma WellformedPut(db: DbState, st: TableState)
    requires DbWellformed(db) && Wellformed(st)
    ensures DbWellformed(db[st.name := st])
  {
    var db' := db[st.name := st];
    forall n | n in db' ensures NamedWellformed(db', n) {
      if n != st.name { assert NamedWellformed(db, n); }
    }
  }

  /** Dropping a table keeps a database well formed. */
  lemma WellformedDrop(db: DbState, name: string)
    requires DbWellformed(db)
    ensures DbWellformed(db - {name})
  {
    var db' := db - {name};
    forall n | n in db' ensures NamedWellformed(db', n) {
      assert NamedWellformed(db, n);
    }
  }

  // ---------------------------------------------------------------------------------------
  // Start-up

  /** The loop of `load`: construct one table per definition, in order, each replacing an
      earlier one of the same name; the first definition that fails to construct fails all. */
  function BuildTables(defs: seq<Value>): (r: Option<DbState>)
    ensures r.Some? <==> forall i :: 0 <= i < |defs| ==> NewTable(defs[i]).Ok?
    ensures r.Some? ==> DbWellformed(r.value)
    decreases |defs|
  {
    if defs == [] then Some(map[])
    else
      var front, last := defs[..|defs| - 1], defs[|defs| - 1];
      assert forall j :: 0 <= j < |front| ==> front[j] == defs[j];
      var prefix := BuildTables(front);
      if prefix.None? then None
      else
        var t := NewTable(last);
        if t.Err? then None
        else
          WellformedPut(prefix.value, t.value);
          Some(prefix.value[t.value.name := t.value])
  }

  /** `load`: an unreadable snapshot, one that is not an array, or one with a definition that
      fails to construct gives the empty database of `cold_start`. */
  function LoadState(snapshot: Snapshot): (r: DbState)
    ensures snapshot.Unreadable? ==> r == map[]
    ensures snapshot.Parsed? && !snapshot.contents.JArr? ==> r == map[]
    ensures snapshot.Parsed? && snapshot.contents.JArr? ==>
              (exists i :: 0 <= i < |snapshot.contents.items| && NewTable(snapshot.contents.items[i]).Err?) ==>
              r == map[]
    ensures snapshot.Parsed? && snapshot.contents.JArr? && BuildTables(snapshot.contents.items).Some? ==>
              r == BuildTables(snapshot.contents.items).value
    ensures DbWellformed(r)
  {
    EmptyWellformed();
    match snapshot
    case Unreadable => map[]
    case Parsed(v) =>
      if !v.JArr? then map[]
      else
        match BuildTables(v.items)
        case None => map[]
        case Some(db) => db
  }

  lemma EmptyWellformed()
    ensures DbWellformed(map[])
  {
  }

  /** One step of the build, written out. */
  lemma BuildTablesUnfold(defs: seq<Value>)
    requires defs != []
    ensures BuildTables(defs) ==
      match BuildTables(defs[..|defs| - 1])
      case None => None
      case Some(m) => var t := NewTable(defs[|defs| - 1]); if t.Err? then None else Some(m[t.value.name := t.value])
  {
  }

  /** A successful build of a non-empty list is the build of its front, then one insertion. */
  lemma BuildTablesLast(defs: seq<Value>)
    requires defs != [] && BuildTables(defs).Some?
    ensures var front, last := defs[..|defs| - 1], defs[|defs| - 1];
            BuildTables(front).Some? && NewTable(last).Ok? &&
            BuildTables(defs).value == BuildTables(front).value[NewTable(last).value.name := NewTable(last).value]
  {
  }

  /** A table is built from the last definition of its name: later definitions win. */
  lemma {:induction false} BuildKeepsLastDefinition(defs: seq<Value>, j: nat)
    requires BuildTables(defs).Some? && j < |defs|
    requires forall i :: j < i < |defs| ==> NewTable(defs[i]).value.name != NewTable(defs[j]).value.name
    ensures var t := NewTable(defs[j]).value;
            t.name in BuildTables(defs).value && BuildTables(defs).value[t.name] == t
    decreases |defs|
  {
    var front := defs[..|defs| - 1];
    BuildTablesLast(defs);
    if j < |defs| - 1 {
      assert forall i :: 0 <= i < |front| ==> front[i] == defs[i];
      BuildKeepsLastDefinition(front, j);
    }
  }

  /** Every table that is built comes from one of the definitions. */
  lemma {:induction false} BuildOnlyListed(defs: seq<Value>, n: string)
    requires BuildTables(defs).Some? && n in BuildTables(defs).value
    ensures exists j :: 0 <= j < |defs| && NewTable(defs[j]) == Ok(BuildTables(defs).value[n])
    decreases |defs|
  {
    var front, last := defs[..|defs| - 1], defs[|defs| - 1];
    BuildTablesLast(defs);
    if NewTable(last).value.name != n {
      BuildOnlyListed(front, n);
      var j :| 0 <= j < |front| && NewTable(front[j]) == Ok(BuildTables(front).value[n]);
      assert front[j] == defs[j];
    } else {
      assert defs[|defs| - 1] == last;
    }
  }

  // ---------------------------------------------------------------------------------------
  // Operations on the abstract state

  /** `create_table`: construct the table (its error is returned, nothing changes) and put it
      under its name, replacing any table of that name. */
  function CreateTableStep(db: DbState, info: Value): (r: (Errors.Result<Value>, DbState))
    ensures NewTable(info).Err? ==> r == (Err(NewTable(info).error), db)
    ensures NewTable(info).Ok? ==>
              var t := NewTable(info).value;
              r.0 == Ok(NullVal) && r.1.Keys == db.Keys + {t.name} && r.1[t.name] == t &&
              forall n :: n in db && n != t.name ==> r.1[n] == db[n]
  {
    match NewTable(info)
    case Err(e) => (Err(e), db)
    case Ok(t) => (Ok(NullVal), db[t.name := t])
  }

  /** `delete_table`: the name is gone afterwards; deleting an absent name is not an error. */
  function DeleteTableStep(db: DbState, name: string): (r: (Errors.Result<Value>, DbState))
    ensures r.0 == Ok(NullVal)
    ensures name !in r.1 && r.1.Keys == db.Keys - {name}
    ensures forall n :: n in r.1 ==> r.1[n] == db[n]
  {
    (Ok(NullVal), db - {name})
  }

  /** `read_table` on the database: `r` is a possible result of reading table `name`. */
  ghost predicate ReadTableResult(db: DbState, name: string, r: Errors.Result<Value>) {
    if name in db then r.Ok? && IsRendering(db[name], r.value) else r == Err(NoSuchTable())
  }

  /** The four document operations. */
  datatype DocOp = CreateDoc | ReadDoc | UpdateDoc | DeleteDoc

  /** A document operation is defined on a table state unless it is an update that reaches
      a panicking unwrap. */
  predicate DocOpDefined(st: TableState, op: DocOp, info: Value) {
    op == UpdateDoc ==> UpdateDefined(st, info)
  }

  /** One document operation on one table state. */
  function TableDocStep(st: TableState, op: DocOp, info: Value): (r: (Errors.Result<Value>, TableState))
    requires DocOpDefined(st, op, info)
  {
    match op
    case CreateDoc => CreateStep(st, info)
    case ReadDoc => (ReadStep(st, info), st)
    case UpdateDoc => UpdateStep(st, info)
    case DeleteDoc => DeleteStep(st, info)
  }

  /** A document operation on the database: TableNotFound for an absent name, otherwise the
      table's own operation on that table alone. */
  function DocStep(db: DbState, name: string, op: DocOp, info: Value): (r: (Errors.Result<Value>, DbState))
    requires name in db ==> DocOpDefined(db[name], op, info)
    ensures name !in db ==> r == (Err(NoSuchTable()), db)
    ensures name in db ==> r.0 == TableDocStep(db[name], op, info).0 && r.1.Keys == db.Keys &&
                           r.1[name] == TableDocStep(db[name], op, info).1
    ensures forall n :: n in db && n != name ==> r.1[n] == db[n]
  {
    if name !in db then (Err(NoSuchTable()), db)
    else
      var (res, st) := TableDocStep(db[name], op, info);
      (res, db[name := st])
  }

  /** A document operation on the database is the table's operation on the named table. */
  lemma DocStepOnTable(db: DbState, name: string, op: DocOp, info: Value, res: Errors.Result<Value>, st: TableState)
    requires name in db && DocOpDefined(db[name], op, info)
    requires op == CreateDoc ==> (res, st) == CreateStep(db[name], info)
    requires op == ReadDoc ==> (res, st) == (ReadStep(db[name], info), db[name])
    requires op == UpdateDoc ==> (res, st) == UpdateStep(db[name], info)
    requires op == DeleteDoc ==> (res, st) == DeleteStep(db[name], info)
    ensures DocStep(db, name, op, info) == (res, db[name := st])
  {
  }

  /** A document operation on the table under `name`, as the database sees it: the step, and
      the database stays well formed. */
  lemma StepOnTable(db: DbState, name: string, op: DocOp, info: Value, res: Errors.Result<Value>, st: TableState)
    requires DbWellformed(db) && name in db && DocOpDefined(db[name], op, info)
    requires op == CreateDoc ==> (res, st) == CreateStep(db[name], info)
    requires op == UpdateDoc ==> (res, st) == UpdateStep(db[name], info)
    requires op == DeleteDoc ==> (res, st) == DeleteStep(db[name], info)
    requires op != ReadDoc && Wellformed(st)
    ensures DocStep(db, name, op, info) == (res, db[name := st])
    ensures DbWellformed(db[name := st])
  {
    DocStepOnTable(db, name, op, info, res, st);
    WellformedAt(db, name);
    WellformedPut(db, st);
  }

  // ---------------------------------------------------------------------------------------
  // Properties of the operations

  /** `create_table` and `delete_table` keep every table well formed under its own name. */
  lemma TableStepsPreserveWellformed(db: DbState, info: Value, name: string)
    requires DbWellformed(db)
    ensures DbWellformed(CreateTableStep(db, info).1)
    ensures DbWellformed(DeleteTableStep(db, name).1)
  {
    if NewTable(info).Ok? {
      WellformedPut(db, NewTable(info).value);
    }
    WellformedDrop(db, name);
  }

  /** Document operations keep every table well formed under its own name. */
  lemma DocStepPreservesWellformed(db: DbState, name: string, op: DocOp, info: Value)
    requires DbWellformed(db) && (name in db ==> DocOpDefined(db[name], op, info))
    ensures DbWellformed(DocStep(db, name, op, info).1)
  {
    if name in db {
      WellformedAt(db, name);
      StepsPreserveWellformed(db[name], info);
      WellformedPut(db, TableDocStep(db[name], op, info).1);
    }
  }

  /** After `delete_table`, every by-name operation on that name reports TableNotFound. */
  lemma DeletedTableNotFound(db: DbState, name: string, op: DocOp, info: Value, r: Errors.Result<Value>)
    ensures DocStep(DeleteTableStep(db, name).1, name, op, info) == (Err(NoSuchTable()), DeleteTableStep(db, name).1)
    ensures ReadTableResult(DeleteTableStep(db, name).1, name, r) <==> r == Err(NoSuchTable())
  {
  }

  /** Creating a table then reading it lists the new table's documents. */
  lemma ReadCreatedTable(db: DbState, info: Value, r: Errors.Result<Value>)
    requires NewTable(info).Ok?
    ensures var t := NewTable(info).value;
            ReadTableResult(CreateTableStep(db, info).1, t.name, r) <==> r.Ok? && IsRendering(t, r.value)
  {
  }

  /** Of two same-name `create_table`s, the second wins outright. */
  lemma CreateTableReplaces(db: DbState, first: Value, second: Value)
    requires NewTable(first).Ok? && NewTable(second).Ok?
    requires NewTable(first).value.name == NewTable(second).value.name
    ensures CreateTableStep(CreateTableStep(db, first).1, second) == CreateTableStep(db, second)
  {
    var n := NewTable(second).value.name;
    assert db[n := NewTable(first).value][n := NewTable(second).value] == db[n := NewTable(second).value];
  }

  // ---------------------------------------------------------------------------------------
  // Listing names, and the snapshot

  /** `names` lists each key of `keys` exactly once. */
  ghost predicate ListsEachOnce(names: seq<string>, keys: set<string>) {
    (forall i :: 0 <= i < |names| ==> names[i] in keys) &&
    (forall n :: n in keys ==> n in names) &&
    (forall i, j :: 0 <= i < j < |names| ==> names[i] != names[j])
  }

  /** Listing one more pending name extends a list of each name once. */
  lemma ListsEachOnceAppend(names: seq<string>, keys: set<string>, pending: set<string>, n: string)
    requires pending <= keys && n in pending && ListsEachOnce(names, keys - pending)
    ensures ListsEachOnce(names + [n], keys - (pending - {n}))
  {
    var names' := names + [n];
    forall i | 0 <= i < |names'| ensures names'[i] in keys - (pending - {n}) {
      if i < |names| { assert names'[i] == names[i]; }
    }
    forall m | m in keys - (pending - {n}) ensures m in names' {
      if m != n {
        assert m in keys - pending;
        assert m in names;
        var i :| 0 <= i < |names| && names[i] == m;
        assert names'[i] == m;
      } else {
        assert names'[|names|] == n;
      }
    }
    forall i, j | 0 <= i < j < |names'| ensures names'[i] != names'[j] {
      if j < |names| { assert names'[i] == names[i] && names'[j] == names[j]; }
      else { assert names'[i] == names[i]; }
    }
  }

  /** A list of each name once is as long as there are names. */
  lemma {:induction false} ListsEachOnceCount(names: seq<string>, keys: set<string>)
    requires ListsEachOnce(names, keys)
    ensures |names| == |keys|
    decreases |names|
  {
    if names != [] {
      var front, last := names[..|names| - 1], names[|names| - 1];
      assert ListsEachOnce(front, keys - {last}) by {
        forall i | 0 <= i < |front| ensures front[i] in keys - {last} {
          assert front[i] == names[i];
        }
        forall n | n in keys - {last} ensures n in front {
          var i :| 0 <= i < |names| && names[i] == n;
          assert front[i] == n;
        }
      }
      ListsEachOnceCount(front, keys - {last});
    }
  }

  /** The JSON strings of a list of names. */
  function NameValues(names: seq<string>): (r: seq<Value>)
    ensures |r| == |names| && forall i :: 0 <= i < |names| ==> r[i] == JStr(names[i])
  {
    if names == [] then [] else NameValues(names[..|names| - 1]) + [JStr(names[|names| - 1])]
  }

  /** The object `read_db` returns. */
  function NamesListing(names: seq<string>): Value {
    JObj(map["tables" := JArr(NameValues(names))])
  }

  /** `v` is a snapshot `save` may write for `db`: an array holding one rendering per table,
      each table once, in whatever order the name map yields them. */
  ghost predicate IsSnapshot(db: DbState, v: Value) {
    v.JArr? &&
    exists names :: ListsEachOnce(names, db.Keys) && |v.items| == |names| &&
                    forall i :: 0 <= i < |names| ==> IsRendering(db[names[i]], v.items[i])
  }

  /** Each table without its emptied partitions. */
  function PrunedDb(db: DbState): (r: DbState)
    ensures r.Keys == db.Keys
    ensures forall n :: n in db ==> r[n] == db[n].(data := Pruned(db[n].data))
  {
    map n | n in db :: db[n].(data := Pruned(db[n].data))
  }

  /** Loading a snapshot `save` wrote rebuilds the database it came from; only partitions
      emptied by deletes are lost. */
  lemma SaveLoadRoundTrip(db: DbState, v: Value)
    requires DbWellformed(db) && IsSnapshot(db, v)
    ensures LoadState(Parsed(v)) == PrunedDb(db)
  {
    var names :| ListsEachOnce(names, db.Keys) && |v.items| == |names| &&
                 forall i :: 0 <= i < |names| ==> IsRendering(db[names[i]], v.items[i]);
    var built := BuildListed(db, v.items, names);
    LoadParsedBuild(v, built);
  }

  /** A snapshot array whose definitions all construct loads as their build. */
  lemma LoadParsedBuild(v: Value, m: DbState)
    requires v.JArr? && BuildTables(v.items) == Some(m)
    ensures LoadState(Parsed(v)) == m
  {
  }

  /** Building the renderings of a listing of every table, each once, rebuilds the database. */
  lemma BuildListed(db: DbState, items: seq<Value>, names: seq<string>) returns (built: DbState)
    requires DbWellformed(db) && ListsEachOnce(names, db.Keys) && |items| == |names|
    requires forall i :: 0 <= i < |names| ==> IsRendering(db[names[i]], items[i])
    ensures BuildTables(items) == Some(built) && built == PrunedDb(db)
  {
    SnapshotItemsReload(db, items, names);
    BuildIsAssemble(items);
    built := AssembleListed(Constructions(items), names, PrunedDb(db));
  }

  /** Each rendering of a snapshot reloads as its table without emptied partitions. */
  lemma SnapshotItemsReload(db: DbState, items: seq<Value>, names: seq<string>)
    requires DbWellformed(db) && |items| == |names|
    requires forall i :: 0 <= i < |names| ==> names[i] in db && IsRendering(db[names[i]], items[i])
    ensures forall i :: 0 <= i < |names| ==> Constructions(items)[i] == Ok(PrunedDb(db)[names[i]])
    ensures forall n :: n in PrunedDb(db) ==> PrunedDb(db)[n].name == n
  {
    forall i | 0 <= i < |names| ensures Constructions(items)[i] == Ok(PrunedDb(db)[names[i]]) {
      ConstructionAt(items, i);
      WellformedAt(db, names[i]);
      ReloadRendering(db[names[i]], items[i]);
    }
    forall n | n in PrunedDb(db) ensures PrunedDb(db)[n].name == n {
      WellformedAt(db, n);
    }
  }

  /** What each definition constructs, in order. */
  function Constructions(defs: seq<Value>): (r: seq<Errors.Result<TableState>>)
    ensures |r| == |defs|
  {
    if defs == [] then [] else Constructions(defs[..|defs| - 1]) + [NewTable(defs[|defs| - 1])]
  }

  /** Entry `i` of the constructions is what definition `i` constructs. */
  lemma {:induction false} ConstructionAt(defs: seq<Value>, i: nat)
    requires i < |defs|
    ensures Constructions(defs)[i] == NewTable(defs[i])
    decreases |defs|
  {
    if i < |defs| - 1 {
      var front := defs[..|defs| - 1];
      ConstructionAt(front, i);
      assert front[i] == defs[i];
    }
  }

  /** The loop of `load` over outcomes already computed: each successful construction
      replaces the table of its name, and any failure fails all. */
  function Assemble(results: seq<Errors.Result<TableState>>): (r: Option<DbState>)
    ensures r.Some? <==> forall i :: 0 <= i < |results| ==> results[i].Ok?
    decreases |results|
  {
    if results == [] then Some(map[])
    else
      var front, last := results[..|results| - 1], results[|results| - 1];
      assert forall j :: 0 <= j < |front| ==> front[j] == results[j];
      match Assemble(front)
      case None => None
      case Some(m) => if last.Err? then None else Some(m[last.value.name := last.value])
  }

  /** Building definitions is assembling their constructions. */
  lemma {:induction false} BuildIsAssemble(defs: seq<Value>)
    ensures BuildTables(defs) == Assemble(Constructions(defs))
    decreases |defs|
  {
    if defs != [] {
      var k := |defs|;
      var c := Constructions(defs);
      BuildIsAssemble(defs[..k - 1]);
      assert c[..k - 1] == Constructions(defs[..k - 1]);
      BuildTablesUnfold(defs);
    }
  }

  /** Assembling tables, each of which `want` holds under its name and which list every name
      of `want`, gives `want`. */
  lemma AssembleListed(results: seq<Errors.Result<TableState>>, names: seq<string>, want: DbState)
    returns (built: DbState)
    requires |results| == |names| && forall n :: n in want ==> n in names
    requires forall n :: n in want ==> want[n].name == n
    requires forall i :: 0 <= i < |names| ==> names[i] in want && results[i] == Ok(want[names[i]])
    ensures Assemble(results) == Some(built) && built == want
  {
    AssemblePrefix(results, names, want);
    built := Assemble(results).value;
    ListedMapEqual(built, names, want);
  }

  /** A map holding exactly the listed names, agreeing with `want` on them, is `want` when
      the list names exactly the keys of `want`. */
  lemma ListedMapEqual(built: DbState, names: seq<string>, want: DbState)
    requires forall n :: n in want <==> n in names
    requires forall n :: n in built <==> n in names
    requires forall n :: n in built ==> built[n] == want[n]
    ensures built == want
  {
    assert built.Keys == want.Keys;
  }

  /** Assembling tables each of which `want` holds under the matching name gives exactly
      those tables. */
  lemma {:induction false} AssemblePrefix(results: seq<Errors.Result<TableState>>, names: seq<string>, want: DbState)
    requires |results| == |names|
    requires forall n :: n in want ==> want[n].name == n
    requires forall i :: 0 <= i < |names| ==> names[i] in want && results[i] == Ok(want[names[i]])
    ensures Assemble(results).Some?
    ensures forall n :: n in Assemble(results).value <==> n in names
    ensures forall n :: n in Assemble(results).value ==> Assemble(results).value[n] == want[n]
    decreases |results|
  {
    if results != [] {
      var k := |results|;
      var front, fnames, n := results[..k - 1], names[..k - 1], names[k - 1];
      assert forall i :: 0 <= i < k - 1 ==> front[i] == results[i] && fnames[i] == names[i];
      AssemblePrefix(front, fnames, want);
      var before := Assemble(front).value;
      assert Assemble(results) == Some(before[n := want[n]]);
      assert names == fnames + [n];
      forall m ensures m in before[n := want[n]] <==> m in names {
        assert m in names <==> m in fnames || m == n;
      }
    }
  }

  // ---------------------------------------------------------------------------------------
  // The database object

  /** The loop of `load` on table objects: construct each definition in turn and file it
      under its name, giving up at the first definition that fails to construct. */
  method ConstructTables(defs: seq<Value>) returns (r: Option<map<string, Table>>, ghost states: DbState)
    ensures r.Some? <==> BuildTables(defs).Some?
    ensures r.Some? ==> BuildTables(defs) == Some(states) && r.value.Keys == states.Keys &&
                        forall n :: n in r.value ==> r.value[n].State() == states[n]
  {
    var output: map<string, Table> := map[];
    states := map[];
    for i := 0 to |defs|
      invariant output.Keys == states.Keys
      invariant forall n :: n in output ==> output[n].State() == states[n]
      invariant BuildTables(defs[..i]) == Some(states)
    {
      var t := Table.New(defs[i]);
      if t.Err? {
        BuildFailsAt(defs, i);
        return None, states;
      }
      BuildExtends(defs, i, states, t.value.State());
      output := output[t.value.tableName := t.value];
      states := states[t.value.tableName := t.value.State()];
    }
    assert defs[..|defs|] == defs;
    return Some(output), states;
  }

  /** A definition that constructs extends the build of those before it. */
  lemma BuildExtends(defs: seq<Value>, i: nat, before: DbState, t: TableState)
    requires i < |defs| && BuildTables(defs[..i]) == Some(before) && NewTable(defs[i]) == Ok(t)
    ensures BuildTables(defs[..i + 1]) == Some(before[t.name := t])
  {
    assert defs[..i + 1][..i] == defs[..i] && defs[..i + 1][i] == defs[i];
    BuildTablesUnfold(defs[..i + 1]);
  }

  /** A definition that fails to construct fails the whole build. */
  lemma BuildFailsAt(defs: seq<Value>, i: nat)
    requires i < |defs| && NewTable(defs[i]).Err?
    ensures BuildTables(defs).None?
  {
  }

  /** `Database`: the tables under their names, and the directory its snapshot lives in. */
  class Database {
    var tables: map<string, Table>
    const path: string
    /** The state of every table, under its name. */
    ghost var model: DbState

    /** Every table has the state `model` records for it, and that state is valid and
        names the table's own key (so distinct names hold distinct table objects). */
    ghost predicate Valid()
      reads this, tables.Values
    {
      tables.Keys == model.Keys && DbWellformed(model) &&
      forall n :: n in tables ==> tables[n].State() == model[n]
    }

    /** Distinct names hold distinct table objects. */
    lemma TablesDistinct(name: string)
      requires Valid() && name in tables
      ensures forall n :: n in tables && n != name ==> tables[n] != tables[name]
    {
      forall n | n in tables && n != name ensures tables[n] != tables[name] {
        WellformedAt(model, n);
        WellformedAt(model, name);
      }
    }

    /** The struct literal that ends `load` and `cold_start`, given tables whose states are
        the well formed `m`. */
    constructor (dir: string, ts: map<string, Table>, ghost m: DbState)
      requires ts.Keys == m.Keys && DbWellformed(m)
      requires forall n :: n in ts ==> ts[n].State() == m[n]
      ensures path == dir && tables == ts && model == m
      ensures Valid()
    {
      path := dir;
      tables := ts;
      model := m;
    }

    /** `cold_start`: an empty database (the directory and file it recreates are left out). */
    static method ColdStart(dir: string) returns (db: Database)
      ensures fresh(db) && db.Valid() && db.path == dir && db.tables == map[] && db.model == map[]
    {
      db := new Database(dir, map[], map[]);
    }

    /** `load`: rebuild the tables from the snapshot, or cold-start. */
    static method Load(dir: string, snapshot: Snapshot) returns (db: Database)
      ensures fresh(db) && db.Valid() && db.path == dir
      ensures db.model == LoadState(snapshot)
    {
      if snapshot.Unreadable? || !snapshot.contents.JArr? {
        db := ColdStart(dir);
        return;
      }
      var built, states := ConstructTables(snapshot.contents.items);
      if built.None? {
        db := ColdStart(dir);
        return;
      }
      db := new Database(dir, built.value, states);
    }

    /** `read_db`: the names of all tables, each once. */
    method ReadDb() returns (r: Errors.Result<Value>, ghost names: seq<string>)
      requires Valid()
      ensures ListsEachOnce(names, model.Keys)
      ensures r == Ok(NamesListing(names))
    {
      var v: seq<Value> := [];
      names := [];
      var pending := tables.Keys;
      while pending != {}
        invariant pending <= tables.Keys
        invariant ListsEachOnce(names, tables.Keys - pending)
        invariant v == NameValues(names)
        decreases pending
      {
        var n :| n in pending;
        ListsEachOnceAppend(names, tables.Keys, pending, n);
        v := v + [JStr(n)];
        names := names + [n];
        pending := pending - {n};
      }
      assert tables.Keys - {} == model.Keys;
      r := Ok(JObj(map["tables" := JArr(v)]));
    }

    /** `create_table`. */
    method CreateTable(info: Value) returns (r: Errors.Result<Value>)
      requires Valid()
      modifies this
      ensures Valid()
      ensures (r, model) == CreateTableStep(old(model), info)
    {
      var t := Table.New(info);
      if t.Err? {
        return Err(t.error);
      }
      WellformedPut(model, t.value.State());
      tables := tables[t.value.tableName := t.value];
      model := model[t.value.tableName := t.value.State()];
      return Ok(NullVal);
    }

    /** `read_table` on the database. */
    method ReadTable(name: string) returns (r: Errors.Result<Value>)
      requires Valid()
      ensures ReadTableResult(model, name, r)
    {
      if name !in tables {
        return Err(NoSuchTable());
      }
      WellformedAt(model, name);
      ghost var order;
      r, order := tables[name].ReadTable();
    }

    /** `delete_table`. */
    method DeleteTable(name: string) returns (r: Errors.Result<Value>)
      requires Valid()
      modifies this
      ensures Valid()
      ensures (r, model) == DeleteTableStep(old(model), name)
    {
      WellformedDrop(model, name);
      tables := tables - {name};
      model := model - {name};
      return Ok(NullVal);
    }

    /** `create_document` on the database. */
    method CreateDocument(name: string, info: Value) returns (r: Errors.Result<Value>)
      requires Valid()
      modifies this, if name in tables then {tables[name]} else {}
      ensures Valid()
      ensures (r, model) == DocStep(old(model), name, CreateDoc, info)
    {
      if name !in tables {
        return Err(NoSuchTable());
      }
      var t := tables[name];
      TablesDistinct(name);
      WellformedAt(model, name);
      r := t.CreateDocument(info);
      ghost var after := t.State();
      StepOnTable(model, name, CreateDoc, info, r, after);
      ghost var next := model[name := after];
      forall n | n in tables ensures tables[n].State() == next[n] {
        if n != name { assert tables[n] != t; }
      }
      model := next;
    }

    /** `read_document` on the database. */
    method ReadDocument(name: string, info: Value) returns (r: Errors.Result<Value>)
      requires Valid()
      ensures (r, model) == DocStep(model, name, ReadDoc, info)
    {
      if name !in tables {
        return Err(NoSuchTable());
      }
      WellformedAt(model, name);
      r := tables[name].ReadDocument(info);
      DocStepOnTable(model, name, ReadDoc, info, r, model[name]);
      assert model[name := model[name]] == model;
    }

    /** `update_document` on the database. */
    method UpdateDocument(name: string, info: Value) returns (r: Errors.Result<Value>)
      requires Valid() && (name in model ==> UpdateDefined(model[name], info))
      modifies this, if name in tables then {tables[name]} else {}
      ensures Valid()
      ensures (r, model) == DocStep(old(model), name, UpdateDoc, info)
    {
      if name !in tables {
        return Err(NoSuchTable());
      }
      var t := tables[name];
      TablesDistinct(name);
      WellformedAt(model, name);
      r := t.UpdateDocument(info);
      ghost var after := t.State();
      StepOnTable(model, name, UpdateDoc, info, r, after);
      ghost var next := model[name := after];
      forall n | n in tables ensures tables[n].State() == next[n] {
        if n != name { assert tables[n] != t; }
      }
      model := next;
    }

    /** `delete_document` on the database. */
    method DeleteDocument(name: string, info: Value) returns (r: Errors.Result<Value>)
      requires Valid()
      modifies this, if name in tables then {tables[name]} else {}
      ensures Valid()
      ensures (r, model) == DocStep(old(model), name, DeleteDoc, info)
    {
      if name !in tables {
        return Err(NoSuchTable());
      }
      var t := tables[name];
      TablesDistinct(name);
      WellformedAt(model, name);
      r := t.DeleteDocument(info);
      ghost var after := t.State();
      StepOnTable(model, name, DeleteDoc, info, r, after);
      ghost var next := model[name := after];
      forall n | n in tables ensures tables[n].State() == next[n] {
        if n != name { assert tables[n] != t; }
      }
      model := next;
    }

    /** `save`: the array of every table's `read_table` object that is written to the
        snapshot file (the write itself is left out). */
    method Save() returns (snapshot: Value)
      requires Valid()
      ensures IsSnapshot(model, snapshot)
    {
      var items: seq<Value> := [];
      ghost var names: seq<string> := [];
      var pending := tables.Keys;
      while pending != {}
        invariant pending <= tables.Keys
        invariant ListsEachOnce(names, tables.Keys - pending) && |items| == |names|
        invariant forall i :: 0 <= i < |names| ==> IsRendering(model[names[i]], items[i])
        decreases pending
      {
        var n :| n in pending;
        WellformedAt(model, n);
        var r;
        ghost var order;
        r, order := tables[n].ReadTable();
        assert IsRendering(model[n], r.value);
        ListsEachOnceAppend(names, tables.Keys, pending, n);
        items := items + [r.value];
        names := names + [n];
        pending := pending - {n};
      }
      assert tables.Keys - {} == model.Keys;
      snapshot := JArr(items);
    }
  }
}
