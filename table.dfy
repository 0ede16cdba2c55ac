/** One table: a partition key, a sort key, and a two-level map from partition value to
    (sort value to document). The first half states each operation as a function on the
    table's abstract state; the class `Table` then implements the operations the way the Rust
    code does, in place, and is proved to agree with those functions. */
module Tables {

  import opened Wrappers
  import opened Json
  import opened Errors
  import opened Validation
  import opened DbKeys

  type Partition = map<KeyDatatype, Value>
  type Data = map<KeyDatatype, Partition>
  /** A stored document's address: its partition value and its sort value. */
  type Entry = (KeyDatatype, KeyDatatype)

  /** The abstract state of a table. */
  datatype TableState = TableState(name: string, primaryKey: Key, sortKey: Key, data: Data)

  // ---------------------------------------------------------------------------------------
  // Keys of a document

  /** Both key values of a document; the partition key is extracted (and can fail) first. */
  function ExtractPair(pk: Key, sk: Key, info: Value): Errors.Result<Entry> {
    match ExtractKey(pk, info)
    case Err(e) => Err(e)
    case Ok(p) =>
      match ExtractKey(sk, info)
      case Err(e) => Err(e)
      case Ok(s) => Ok((p, s))
  }

  /** When both keys are wrong, the partition key's error is the one reported. */
  lemma PrimaryKeyCheckedFirst(pk: Key, sk: Key, info: Value)
    requires ExtractKey(pk, info).Err?
    ensures ExtractPair(pk, sk, info) == Err(ExtractKey(pk, info).error)
  {
  }

  /** Every stored key has its role's variant, and every stored document sits at the address
      its own key fields give. The first half is what keeps the cross-variant comparisons of
      the key type (which panic) out of reach. */
  ghost predicate WellKeyed(pk: Key, sk: Key, data: Data) {
    forall p :: p in data ==>
      SameVariant(p, pk.dtype) &&
      forall s :: s in data[p] ==>
        SameVariant(s, sk.dtype) && ExtractPair(pk, sk, data[p][s]) == Ok((p, s))
  }

  /** The invariant of every table: key datatypes come from the key names, and data is
      well keyed. */
  ghost predicate Wellformed(st: TableState) {
    st.primaryKey.dtype == FromStr(st.primaryKey.name) &&
    st.sortKey.dtype == FromStr(st.sortKey.name) &&
    WellKeyed(st.primaryKey, st.sortKey, st.data)
  }

  // ---------------------------------------------------------------------------------------
  // The two-level map

  /** The document at (p, s), or JSON null when the partition or the sort value is absent. */
  function Lookup(data: Data, p: KeyDatatype, s: KeyDatatype): Value {
    if p in data && s in data[p] then data[p][s] else JNull
  }

  /** Get-or-create the partition, then put `doc` at `s`, overwriting what was there. */
  function Insert(data: Data, p: KeyDatatype, s: KeyDatatype, doc: Value): (r: Data)
    ensures r.Keys == data.Keys + {p} && s in r[p]
    ensures Lookup(r, p, s) == doc
    ensures forall q, t :: (q, t) != (p, s) ==> Lookup(r, q, t) == Lookup(data, q, t)
    ensures forall q :: q in data && q != p ==> r[q] == data[q]
  {
    var inner := if p in data then data[p] else map[];
    data[p := inner[s := doc]]
  }

  /** Drop the document at (p, s) if there is one; partitions stay, even when emptied. */
  function Remove(data: Data, p: KeyDatatype, s: KeyDatatype): (r: Data)
    ensures r.Keys == data.Keys
    ensures p in r ==> s !in r[p]
    ensures forall q, t :: (q, t) != (p, s) ==> Lookup(r, q, t) == Lookup(data, q, t)
    ensures forall q :: q in data && q != p ==> r[q] == data[q]
  {
    if p in data then data[p := data[p] - {s}] else data
  }

  /** A shallow merge: the patch's top-level fields are added or overwrite; the others stay. */
  function ShallowMerge(base: map<string, Value>, patch: map<string, Value>): (r: map<string, Value>)
    ensures r.Keys == base.Keys + patch.Keys
    ensures forall k :: k in patch ==> r[k] == patch[k]
    ensures forall k :: k in base && k !in patch ==> r[k] == base[k]
  {
    base + patch
  }

  /** Merge `patch` into the object stored at (p, s), when the partition exists. */
  function Patch(data: Data, p: KeyDatatype, s: KeyDatatype, patch: map<string, Value>): (r: Data)
    requires p in data ==> s in data[p] && data[p][s].JObj?
    ensures r.Keys == data.Keys
    ensures p in data ==> Lookup(r, p, s) == JObj(ShallowMerge(data[p][s].fields, patch))
    ensures forall q, t :: (q, t) != (p, s) ==> Lookup(r, q, t) == Lookup(data, q, t)
    ensures forall q :: q in data && q != p ==> r[q] == data[q]
  {
    if p in data then data[p := data[p][s := JObj(ShallowMerge(data[p][s].fields, patch))]]
    else data
  }

  // ---------------------------------------------------------------------------------------
  // Document operations on the abstract state

  /** `create_document`: an upsert at the document's own keys; null on success. */
  function CreateStep(st: TableState, info: Value): (r: (Errors.Result<Value>, TableState))
    ensures r.1.name == st.name && r.1.primaryKey == st.primaryKey && r.1.sortKey == st.sortKey
    ensures ExtractPair(st.primaryKey, st.sortKey, info).Err? ==>
              r == (Err(ExtractPair(st.primaryKey, st.sortKey, info).error), st)
    ensures ExtractPair(st.primaryKey, st.sortKey, info).Ok? ==>
              var (p, s) := ExtractPair(st.primaryKey, st.sortKey, info).value;
              r.0 == Ok(NullVal) && Lookup(r.1.data, p, s) == info &&
              r.1.data.Keys == st.data.Keys + {p} &&
              forall q, t :: (q, t) != (p, s) ==> Lookup(r.1.data, q, t) == Lookup(st.data, q, t)
  {
    match ExtractPair(st.primaryKey, st.sortKey, info)
    case Err(e) => (Err(e), st)
    case Ok((p, s)) => (Ok(NullVal), st.(data := Insert(st.data, p, s, info)))
  }

  /** `read_document`: the stored document, or null when there is none (not an error). */
  function ReadStep(st: TableState, info: Value): (r: Errors.Result<Value>)
    ensures ExtractPair(st.primaryKey, st.sortKey, info).Err? ==>
              r == Err(ExtractPair(st.primaryKey, st.sortKey, info).error)
    ensures ExtractPair(st.primaryKey, st.sortKey, info).Ok? ==>
              var (p, s) := ExtractPair(st.primaryKey, st.sortKey, info).value;
              (p in st.data && s in st.data[p] ==> r == Ok(st.data[p][s])) &&
              (!(p in st.data && s in st.data[p]) ==> r == Ok(JNull))
  {
    match ExtractPair(st.primaryKey, st.sortKey, info)
    case Err(e) => Err(e)
    case Ok((p, s)) => Ok(Lookup(st.data, p, s))
  }

  /** `update_document` does not panic: when the partition exists, so does the document, and
      it is an object (the Rust code unwraps the sort-key lookup, then the object view). */
  predicate UpdateDefined(st: TableState, info: Value) {
    match ExtractPair(st.primaryKey, st.sortKey, info)
    case Err(_) => true
    case Ok((p, s)) => p in st.data ==> s in st.data[p] && st.data[p][s].JObj?
  }

  /** In a well formed table every document is an object, so the only way `update_document`
      panics is a missing document in an existing partition. */
  lemma UpdatePanicsOnlyOnMissingDocument(st: TableState, info: Value)
    requires Wellformed(st) && ExtractPair(st.primaryKey, st.sortKey, info).Ok?
    ensures var (p, s) := ExtractPair(st.primaryKey, st.sortKey, info).value;
            UpdateDefined(st, info) <==> (p in st.data ==> s in st.data[p])
  {
    var (p, s) := ExtractPair(st.primaryKey, st.sortKey, info).value;
    if p in st.data && s in st.data[p] {
      assert ExtractPair(st.primaryKey, st.sortKey, st.data[p][s]).Ok?;
    }
  }

  /** `update_document`: shallow-merge the payload into the stored document; with no such
      partition, nothing happens and null is returned. */
  function UpdateStep(st: TableState, info: Value): (r: (Errors.Result<Value>, TableState))
    requires UpdateDefined(st, info)
    ensures r.1.name == st.name && r.1.primaryKey == st.primaryKey && r.1.sortKey == st.sortKey
    ensures ExtractPair(st.primaryKey, st.sortKey, info).Err? ==>
              r == (Err(ExtractPair(st.primaryKey, st.sortKey, info).error), st)
    ensures ExtractPair(st.primaryKey, st.sortKey, info).Ok? ==>
              var (p, s) := ExtractPair(st.primaryKey, st.sortKey, info).value;
              r.0 == Ok(NullVal) &&
              (p !in st.data ==> r.1 == st) &&
              (p in st.data ==> Lookup(r.1.data, p, s) == JObj(ShallowMerge(st.data[p][s].fields, info.fields))) &&
              r.1.data.Keys == st.data.Keys &&
              forall q, t :: (q, t) != (p, s) ==> Lookup(r.1.data, q, t) == Lookup(st.data, q, t)
  {
    match ExtractPair(st.primaryKey, st.sortKey, info)
    case Err(e) => (Err(e), st)
    case Ok((p, s)) =>
      if p !in st.data then (Ok(NullVal), st)
      else (Ok(NullVal), st.(data := Patch(st.data, p, s, info.fields)))
  }

  /** `delete_document`: remove the document if present; absence is not an error. */
  function DeleteStep(st: TableState, info: Value): (r: (Errors.Result<Value>, TableState))
    ensures r.1.name == st.name && r.1.primaryKey == st.primaryKey && r.1.sortKey == st.sortKey
    ensures r.1.data.Keys == st.data.Keys
    ensures ExtractPair(st.primaryKey, st.sortKey, info).Err? ==>
              r == (Err(ExtractPair(st.primaryKey, st.sortKey, info).error), st)
    ensures ExtractPair(st.primaryKey, st.sortKey, info).Ok? ==>
              var (p, s) := ExtractPair(st.primaryKey, st.sortKey, info).value;
              r.0 == Ok(NullVal) && Lookup(r.1.data, p, s) == JNull &&
              forall q, t :: (q, t) != (p, s) ==> Lookup(r.1.data, q, t) == Lookup(st.data, q, t)
  {
    match ExtractPair(st.primaryKey, st.sortKey, info)
    case Err(e) => (Err(e), st)
    case Ok((p, s)) => (Ok(NullVal), st.(data := Remove(st.data, p, s)))
  }

  // ---------------------------------------------------------------------------------------
  // Properties of the document operations

  /** A create at other keys does not change what a read returns. */
  lemma ReadUnaffectedByOtherCreate(st: TableState, doc: Value, query: Value)
    requires ExtractPair(st.primaryKey, st.sortKey, doc).Ok? && ExtractPair(st.primaryKey, st.sortKey, query).Ok?
    requires ExtractPair(st.primaryKey, st.sortKey, query) != ExtractPair(st.primaryKey, st.sortKey, doc)
    ensures ReadStep(CreateStep(st, doc).1, query) == ReadStep(st, query)
  {
  }

  /** A created document is what a later read with the same keys returns. */
  lemma ReadAfterCreate(st: TableState, doc: Value, query: Value)
    requires ExtractPair(st.primaryKey, st.sortKey, doc).Ok?
    requires ExtractPair(st.primaryKey, st.sortKey, query) == ExtractPair(st.primaryKey, st.sortKey, doc)
    ensures ReadStep(CreateStep(st, doc).1, query) == Ok(doc)
  {
  }

  /** Creating the same document twice leaves the state of creating it once. */
  lemma CreateIdempotent(st: TableState, doc: Value)
    ensures CreateStep(CreateStep(st, doc).1, doc) == CreateStep(st, doc)
  {
    match ExtractPair(st.primaryKey, st.sortKey, doc)
    case Err(_) =>
    case Ok((p, s)) =>
      var once := Insert(st.data, p, s, doc);
      var st1 := CreateStep(st, doc).1;
      assert st1 == st.(data := once);
      assert once[p][s := doc] == once[p];
      assert Insert(once, p, s, doc) == once;
      assert CreateStep(st1, doc) == (Ok(NullVal), st1.(data := Insert(once, p, s, doc)));
  }

  /** A second create at the same keys replaces the first document entirely. */
  lemma CreateOverwrites(st: TableState, first: Value, second: Value)
    requires ExtractPair(st.primaryKey, st.sortKey, first).Ok?
    requires ExtractPair(st.primaryKey, st.sortKey, second) == ExtractPair(st.primaryKey, st.sortKey, first)
    ensures CreateStep(CreateStep(st, first).1, second) == CreateStep(st, second)
  {
    var (p, s) := ExtractPair(st.primaryKey, st.sortKey, first).value;
    var inner := if p in st.data then st.data[p] else map[];
    assert inner[s := first][s := second] == inner[s := second];
    var st1 := CreateStep(st, first).1;
    assert st1 == st.(data := Insert(st.data, p, s, first));
    assert Insert(st1.data, p, s, second) == Insert(st.data, p, s, second);
    assert CreateStep(st1, second) == (Ok(NullVal), st1.(data := Insert(st1.data, p, s, second)));
  }

  /** After a delete, reading the same keys gives the null sentinel. */
  lemma ReadAfterDelete(st: TableState, query: Value, again: Value)
    requires ExtractPair(st.primaryKey, st.sortKey, query).Ok?
    requires ExtractPair(st.primaryKey, st.sortKey, again) == ExtractPair(st.primaryKey, st.sortKey, query)
    ensures ReadStep(DeleteStep(st, query).1, again) == Ok(JNull)
  {
  }

  /** Two documents whose keys extract alike share an address in every key field that matters. */
  lemma ExtractKeyFromField(key: Key, a: Value, b: Value)
    requires a.JObj? && b.JObj?
    requires key.name in a.fields && key.name in b.fields && a.fields[key.name] == b.fields[key.name]
    ensures ExtractKey(key, a) == ExtractKey(key, b)
  {
  }

  /** Merging a payload into a document at the same address keeps the merged document there. */
  lemma {:induction false} MergeKeepsAddress(pk: Key, sk: Key, doc: Value, info: Value, e: Entry)
    requires ExtractPair(pk, sk, doc) == Ok(e) && ExtractPair(pk, sk, info) == Ok(e)
    ensures doc.JObj? && info.JObj?
    ensures ExtractPair(pk, sk, JObj(ShallowMerge(doc.fields, info.fields))) == Ok(e)
  {
    var merged := JObj(ShallowMerge(doc.fields, info.fields));
    if !pk.dtype.Null? {
      ExtractKeyFromField(pk, merged, info);
    }
    if !sk.dtype.Null? {
      ExtractKeyFromField(sk, merged, info);
    }
  }

  /** Storing a document at its own keys keeps data well keyed. */
  lemma InsertKeepsWellKeyed(pk: Key, sk: Key, data: Data, doc: Value)
    requires WellKeyed(pk, sk, data) && ExtractPair(pk, sk, doc).Ok?
    ensures var (p, s) := ExtractPair(pk, sk, doc).value; WellKeyed(pk, sk, Insert(data, p, s, doc))
  {
  }

  /** Removing a document keeps data well keyed. */
  lemma RemoveKeepsWellKeyed(pk: Key, sk: Key, data: Data, p: KeyDatatype, s: KeyDatatype)
    requires WellKeyed(pk, sk, data)
    ensures WellKeyed(pk, sk, Remove(data, p, s))
  {
  }

  /** Merging a payload with the same keys into a stored document keeps data well keyed. */
  lemma PatchKeepsWellKeyed(pk: Key, sk: Key, data: Data, info: Value)
    requires WellKeyed(pk, sk, data) && ExtractPair(pk, sk, info).Ok?
    requires var (p, s) := ExtractPair(pk, sk, info).value; p in data ==> s in data[p]
    ensures var (p, s) := ExtractPair(pk, sk, info).value;
            (p in data ==> data[p][s].JObj?) && info.JObj? &&
            WellKeyed(pk, sk, Patch(data, p, s, info.fields))
  {
    var (p, s) := ExtractPair(pk, sk, info).value;
    if p in data {
      MergeKeepsAddress(pk, sk, data[p][s], info, (p, s));
      var patched := Patch(data, p, s, info.fields);
      assert patched[p] == data[p][s := JObj(ShallowMerge(data[p][s].fields, info.fields))];
    }
  }

  /** Every document operation keeps a table well formed. */
  lemma StepsPreserveWellformed(st: TableState, info: Value)
    requires Wellformed(st)
    ensures Wellformed(CreateStep(st, info).1)
    ensures Wellformed(DeleteStep(st, info).1)
    ensures UpdateDefined(st, info) ==> Wellformed(UpdateStep(st, info).1)
  {
    var pk, sk := st.primaryKey, st.sortKey;
    if ExtractPair(pk, sk, info).Ok? {
      var (p, s) := ExtractPair(pk, sk, info).value;
      InsertKeepsWellKeyed(pk, sk, st.data, info);
      RemoveKeepsWellKeyed(pk, sk, st.data, p, s);
      if UpdateDefined(st, info) {
        PatchKeepsWellKeyed(pk, sk, st.data, info);
      }
    }
  }

  /** A failed key extraction changes nothing, whatever the operation. */
  lemma FailedExtractionChangesNothing(st: TableState, info: Value)
    requires Wellformed(st)
    requires ExtractPair(st.primaryKey, st.sortKey, info).Err?
    ensures CreateStep(st, info).1 == st && DeleteStep(st, info).1 == st
    ensures UpdateDefined(st, info) && UpdateStep(st, info).1 == st
  {
  }

  /** Key datatypes come from the key names, so in a table whose key names are not datatype
      words (a name such as "user_id") every key value is Null: the table holds at most one
      document, at (Null, Null). */
  lemma OrdinaryNamesKeyByNull(st: TableState)
    requires Wellformed(st)
    requires st.primaryKey.name !in DatatypeWords && st.sortKey.name !in DatatypeWords
    ensures st.data.Keys <= {Null}
    ensures forall p :: p in st.data ==> st.data[p].Keys <= {Null}
  {
    forall p | p in st.data ensures p == Null && st.data[p].Keys <= {Null} {
      forall s | s in st.data[p] ensures s == Null {
        assert SameVariant(s, Null);
      }
    }
  }

  // ---------------------------------------------------------------------------------------
  // Bulk load

  /** Load a list of documents in order, each at its own keys, stopping at the first one
      whose keys cannot be extracted. */
  function LoadDocs(pk: Key, sk: Key, docs: seq<Value>): (r: Errors.Result<Data>)
    ensures r.Ok? <==> forall j :: 0 <= j < |docs| ==> ExtractPair(pk, sk, docs[j]).Ok?
    ensures r.Ok? ==> WellKeyed(pk, sk, r.value)
    decreases |docs|
  {
    if docs == [] then Ok(map[])
    else
      var front, last := docs[..|docs| - 1], docs[|docs| - 1];
      var prefix := LoadDocs(pk, sk, front);
      if prefix.Err? then
        var j :| 0 <= j < |front| && ExtractPair(pk, sk, front[j]).Err?;
        assert front[j] == docs[j];
        Err(prefix.error)
      else
        var pair := ExtractPair(pk, sk, last);
        if pair.Err? then
          assert ExtractPair(pk, sk, docs[|docs| - 1]).Err?;
          Err(pair.error)
        else
          AllExtractExtends(pk, sk, docs, front);
          InsertKeepsWellKeyed(pk, sk, prefix.value, last);
          Ok(Insert(prefix.value, pair.value.0, pair.value.1, last))
  }

  /** A failed load reports the error of the first document whose keys do not extract. */
  lemma {:induction false} LoadDocsFirstFailure(pk: Key, sk: Key, docs: seq<Value>)
    requires LoadDocs(pk, sk, docs).Err?
    ensures exists j :: 0 <= j < |docs| && ExtractPair(pk, sk, docs[j]).Err? &&
                        LoadDocs(pk, sk, docs) == Err(ExtractPair(pk, sk, docs[j]).error) &&
                        forall i :: 0 <= i < j ==> ExtractPair(pk, sk, docs[i]).Ok?
    decreases |docs|
  {
    var front := docs[..|docs| - 1];
    if LoadDocs(pk, sk, front).Err? {
      LoadDocsFirstFailure(pk, sk, front);
      var j :| 0 <= j < |front| && ExtractPair(pk, sk, front[j]).Err? &&
               LoadDocs(pk, sk, front) == Err(ExtractPair(pk, sk, front[j]).error) &&
               forall i :: 0 <= i < j ==> ExtractPair(pk, sk, front[i]).Ok?;
      assert front[j] == docs[j];
      forall i | 0 <= i < j ensures ExtractPair(pk, sk, docs[i]).Ok? {
        assert front[i] == docs[i];
      }
    } else {
      var j := |docs| - 1;
      forall i | 0 <= i < j ensures ExtractPair(pk, sk, docs[i]).Ok? {
        assert front[i] == docs[i];
      }
    }
  }

  /** Keys extract from every document when they extract from the front and the last one. */
  lemma AllExtractExtends(pk: Key, sk: Key, docs: seq<Value>, front: seq<Value>)
    requires docs != [] && front == docs[..|docs| - 1]
    requires forall j :: 0 <= j < |front| ==> ExtractPair(pk, sk, front[j]).Ok?
    requires ExtractPair(pk, sk, docs[|docs| - 1]).Ok?
    ensures forall j :: 0 <= j < |docs| ==> ExtractPair(pk, sk, docs[j]).Ok?
  {
    forall j | 0 <= j < |docs| ensures ExtractPair(pk, sk, docs[j]).Ok? {
      if j < |front| { assert docs[j] == front[j]; }
    }
  }

  /** `Table::load`: needs a `data` field (MissingFields) holding an array (BadInput). */
  function BulkLoad(pk: Key, sk: Key, info: Value): (r: Errors.Result<Data>)
    ensures Get(info, "data").None? ==> r == Err(MissingFields("Must contain field data"))
    ensures Get(info, "data").Some? && !Get(info, "data").value.JArr? ==>
              r == Err(BadInput("data must be valid JSON array"))
    ensures Get(info, "data").Some? && Get(info, "data").value.JArr? ==>
              r == LoadDocs(pk, sk, Get(info, "data").value.items)
  {
    match Get(info, "data")
    case None => Err(MissingFields("Must contain field data"))
    case Some(d) =>
      if !d.JArr? then Err(BadInput("data must be valid JSON array"))
      else LoadDocs(pk, sk, d.items)
  }

  /** A successful load of a non-empty list is the load of its front, then one insertion. */
  lemma LoadDocsLast(pk: Key, sk: Key, docs: seq<Value>)
    requires docs != [] && LoadDocs(pk, sk, docs).Ok?
    ensures var front, last := docs[..|docs| - 1], docs[|docs| - 1];
            LoadDocs(pk, sk, front).Ok? && ExtractPair(pk, sk, last).Ok? &&
            LoadDocs(pk, sk, docs).value ==
              Insert(LoadDocs(pk, sk, front).value, ExtractPair(pk, sk, last).value.0,
                     ExtractPair(pk, sk, last).value.1, last)
  {
  }

  /** One step of the load, written out. */
  lemma LoadDocsUnfold(pk: Key, sk: Key, docs: seq<Value>)
    requires docs != []
    ensures LoadDocs(pk, sk, docs) ==
      match LoadDocs(pk, sk, docs[..|docs| - 1])
      case Err(e) => Err(e)
      case Ok(m) =>
        match ExtractPair(pk, sk, docs[|docs| - 1])
        case Err(e) => Err(e)
        case Ok(pair) => Ok(Insert(m, pair.0, pair.1, docs[|docs| - 1]))
  {
  }

  /** Once a prefix fails to load, the whole list fails with the same error. */
  lemma {:induction false} LoadDocsFailureSticks(pk: Key, sk: Key, docs: seq<Value>, i: nat)
    requires i <= |docs| && LoadDocs(pk, sk, docs[..i]).Err?
    ensures LoadDocs(pk, sk, docs) == LoadDocs(pk, sk, docs[..i])
    decreases |docs| - i
  {
    if i < |docs| {
      assert docs[..i + 1][..i] == docs[..i];
      LoadDocsFailureSticks(pk, sk, docs, i + 1);
    } else {
      assert docs[..i] == docs;
    }
  }

  /** A loaded document is stored at its keys unless a later one has the same keys:
      the last document for a given address wins. */
  lemma {:induction false} LoadKeepsLastDocument(pk: Key, sk: Key, docs: seq<Value>, j: nat)
    requires LoadDocs(pk, sk, docs).Ok? && j < |docs|
    requires forall i :: j < i < |docs| ==> ExtractPair(pk, sk, docs[i]) != ExtractPair(pk, sk, docs[j])
    ensures var (p, s) := ExtractPair(pk, sk, docs[j]).value;
            Lookup(LoadDocs(pk, sk, docs).value, p, s) == docs[j]
    decreases |docs|
  {
    var front, last := docs[..|docs| - 1], docs[|docs| - 1];
    LoadDocsLast(pk, sk, docs);
    if j < |docs| - 1 {
      assert forall i :: 0 <= i < |front| ==> front[i] == docs[i];
      LoadKeepsLastDocument(pk, sk, front, j);
      assert ExtractPair(pk, sk, last) != ExtractPair(pk, sk, docs[j]);
    }
  }

  /** Everything a bulk load stores comes from the list, at that document's own keys. */
  lemma {:induction false} LoadStoresOnlyListed(pk: Key, sk: Key, docs: seq<Value>, p: KeyDatatype, s: KeyDatatype)
    requires LoadDocs(pk, sk, docs).Ok?
    requires p in LoadDocs(pk, sk, docs).value && s in LoadDocs(pk, sk, docs).value[p]
    ensures exists j :: 0 <= j < |docs| && ExtractPair(pk, sk, docs[j]) == Ok((p, s)) &&
                        LoadDocs(pk, sk, docs).value[p][s] == docs[j]
    decreases |docs|
  {
    var front, last := docs[..|docs| - 1], docs[|docs| - 1];
    LoadDocsLast(pk, sk, docs);
    var m, m0 := LoadDocs(pk, sk, docs).value, LoadDocs(pk, sk, front).value;
    if ExtractPair(pk, sk, last) != Ok((p, s)) {
      assert Lookup(m, p, s) == Lookup(m0, p, s);
      assert p in m0 && s in m0[p];
      LoadStoresOnlyListed(pk, sk, front, p, s);
      var j :| 0 <= j < |front| && ExtractPair(pk, sk, front[j]) == Ok((p, s)) && m0[p][s] == front[j];
      assert docs[j] == front[j];
    } else {
      assert Lookup(m, p, s) == last;
      assert docs[|docs| - 1] == last;
    }
  }

  /** A bulk load never leaves an empty partition behind. */
  lemma {:induction false} LoadedPartitionsNonEmpty(pk: Key, sk: Key, docs: seq<Value>)
    requires LoadDocs(pk, sk, docs).Ok?
    ensures forall p :: p in LoadDocs(pk, sk, docs).value ==> LoadDocs(pk, sk, docs).value[p] != map[]
    decreases |docs|
  {
    if docs != [] {
      var front := docs[..|docs| - 1];
      LoadDocsLast(pk, sk, docs);
      LoadedPartitionsNonEmpty(pk, sk, front);
    }
  }

  // ---------------------------------------------------------------------------------------
  // Construction

  /** The key a descriptor `{name, ...}` defines: the datatype is read from the NAME. */
  function DescriptorKey(desc: Value): (k: Key)
    requires Index(desc, "name").JStr?
    ensures k.name == Index(desc, "name").s && k.dtype == FromStr(k.name)
  {
    var name := Index(desc, "name").s;
    Key(name, FromStr(name))
  }

  /** `Table::new`: the name and key checks can fail; the bulk load cannot, since a load that
      fails only leaves the table empty. */
  function NewTable(info: Value): (r: Errors.Result<TableState>)
    ensures CheckStringFieldsExist(info, ["table_name"]).Err? ==>
              r == Err(CheckStringFieldsExist(info, ["table_name"]).error)
    ensures CheckStringFieldsExist(info, ["table_name"]).Ok? &&
            CheckKeyFieldsExist(info, ["primary_key", "sort_key"]).Err? ==>
              r == Err(CheckKeyFieldsExist(info, ["primary_key", "sort_key"]).error)
    ensures r.Ok? <==> CheckStringFieldsExist(info, ["table_name"]).Ok? &&
                       CheckKeyFieldsExist(info, ["primary_key", "sort_key"]).Ok?
    ensures r.Ok? ==> Wellformed(r.value)
    ensures r.Ok? ==> JStr(r.value.name) == Index(info, "table_name") &&
                      JStr(r.value.primaryKey.name) == Index(Index(info, "primary_key"), "name") &&
                      JStr(r.value.sortKey.name) == Index(Index(info, "sort_key"), "name")
    ensures r.Ok? ==> (r.value.data == map[] <== BulkLoad(r.value.primaryKey, r.value.sortKey, info).Err?)
    ensures r.Ok? && BulkLoad(r.value.primaryKey, r.value.sortKey, info).Ok? ==>
              r.value.data == BulkLoad(r.value.primaryKey, r.value.sortKey, info).value
  {
    var nameCheck := CheckStringFieldsExist(info, ["table_name"]);
    if nameCheck.Err? then Err(nameCheck.error)
    else
      var fields := ["primary_key", "sort_key"];
      assert fields[0] == "primary_key" && fields[1] == "sort_key";
      var keyCheck := CheckKeyFieldsExist(info, fields);
      if keyCheck.Err? then Err(keyCheck.error)
      else
        assert ["table_name"][0] == "table_name";
        var pk := DescriptorKey(Index(info, "primary_key"));
        var sk := DescriptorKey(Index(info, "sort_key"));
        var loaded := BulkLoad(pk, sk, info);
        Ok(TableState(Index(info, "table_name").s, pk, sk, if loaded.Ok? then loaded.value else map[]))
  }

  // ---------------------------------------------------------------------------------------
  // Reading a whole table

  /** The JSON form of a key descriptor; the datatype is written with `to_str`. */
  function KeyDescriptor(key: Key): Value {
    JObj(map["name" := JStr(key.name), "datatype" := JStr(ToStr(key.dtype))])
  }

  /** The object `read_table` returns for a table state and its list of documents. */
  function Render(st: TableState, docs: seq<Value>): Value {
    JObj(map["table_name" := JStr(st.name),
             "primary_key" := KeyDescriptor(st.primaryKey),
             "sort_key" := KeyDescriptor(st.sortKey),
             "data" := JArr(docs)])
  }

  /** Every address in `order` is stored. */
  ghost predicate Stored(data: Data, order: seq<Entry>) {
    forall i :: 0 <= i < |order| ==> order[i].0 in data && order[i].1 in data[order[i].0]
  }

  /** Every address in `order` belongs to a partition in `done`. */
  ghost predicate WithinPartitions(done: set<KeyDatatype>, order: seq<Entry>) {
    forall i :: 0 <= i < |order| ==> order[i].0 in done
  }

  /** Every stored address of a partition in `done` is in `order`. */
  ghost predicate Covers(data: Data, done: set<KeyDatatype>, order: seq<Entry>) {
    forall p, s :: p in done && p in data && s in data[p] ==> (p, s) in order
  }

  /** Each partition's addresses form one run, in ascending sort-key order. */
  ghost predicate RunsAscending(order: seq<Entry>) {
    forall i, j :: 0 <= i < j < |order| && order[i].0 == order[j].0 ==>
      KeyLess(order[i].1, order[j].1) && order[i + 1].0 == order[i].0
  }

  /** `order` lists every stored address of the partitions in `done` and nothing else; each
      partition's addresses form one run, in ascending sort-key order. */
  ghost predicate EmittedSoFar(data: Data, done: set<KeyDatatype>, order: seq<Entry>) {
    Stored(data, order) && WithinPartitions(done, order) && Covers(data, done, order) &&
    RunsAscending(order)
  }

  /** `order` is an order `read_table` may list the table's documents in: all partitions, any
      partition order, ascending sort keys within a partition. */
  ghost predicate ListsInTableOrder(data: Data, order: seq<Entry>) {
    EmittedSoFar(data, data.Keys, order)
  }

  /** The documents at the addresses in `order`. */
  ghost function DocsAt(data: Data, order: seq<Entry>): (docs: seq<Value>)
    requires Stored(data, order)
    ensures |docs| == |order|
    ensures forall i :: 0 <= i < |order| ==> docs[i] == data[order[i].0][order[i].1]
  {
    if order == [] then []
    else DocsAt(data, order[..|order| - 1]) + [data[order[|order| - 1].0][order[|order| - 1].1]]
  }

  /** `v` is an output `read_table` may produce for `st`. */
  ghost predicate IsRendering(st: TableState, v: Value) {
    exists order :: ListsInTableOrder(st.data, order) && v == Render(st, DocsAt(st.data, order))
  }

  /** In a listing, no address appears twice: each stored document is listed exactly once. */
  lemma ListedOnce(data: Data, order: seq<Entry>, i: nat, j: nat)
    requires ListsInTableOrder(data, order) && i < j < |order|
    ensures order[i] != order[j]
  {
    if order[i].0 == order[j].0 {
      assert KeyLess(order[i].1, order[j].1);
    }
  }

  /** The run of one partition's addresses, ascending, covering exactly `emitted`. */
  ghost predicate SortedRun(p: KeyDatatype, emitted: set<KeyDatatype>, run: seq<Entry>) {
    (forall i :: 0 <= i < |run| ==> run[i].0 == p && run[i].1 in emitted) &&
    (forall s :: s in emitted ==> (p, s) in run) &&
    (forall i, j :: 0 <= i < j < |run| ==> KeyLess(run[i].1, run[j].1))
  }

  /** Appending a whole partition's run extends a listing by that partition. */
  lemma AppendRun(data: Data, done: set<KeyDatatype>, order: seq<Entry>, p: KeyDatatype, run: seq<Entry>)
    requires EmittedSoFar(data, done, order) && p in data && p !in done
    requires SortedRun(p, data[p].Keys, run)
    ensures EmittedSoFar(data, done + {p}, order + run)
  {
    AppendRunStored(data, done, order, p, run);
    AppendRunCovers(data, done, order, p, run);
    AppendRunAscending(data, done, order, p, run);
  }

  lemma AppendRunStored(data: Data, done: set<KeyDatatype>, order: seq<Entry>, p: KeyDatatype, run: seq<Entry>)
    requires Stored(data, order) && WithinPartitions(done, order) && p in data
    requires SortedRun(p, data[p].Keys, run)
    ensures Stored(data, order + run) && WithinPartitions(done + {p}, order + run)
  {
    var all, n := order + run, |order|;
    forall i | 0 <= i < |all|
      ensures all[i].0 in data && all[i].1 in data[all[i].0] && all[i].0 in done + {p}
    {
      if i >= n { assert all[i] == run[i - n]; } else { assert all[i] == order[i]; }
    }
  }

  lemma AppendRunCovers(data: Data, done: set<KeyDatatype>, order: seq<Entry>, p: KeyDatatype, run: seq<Entry>)
    requires Covers(data, done, order) && p in data
    requires SortedRun(p, data[p].Keys, run)
    ensures Covers(data, done + {p}, order + run)
  {
    var all := order + run;
    forall p', s | p' in done + {p} && p' in data && s in data[p'] ensures (p', s) in all {
      if p' == p {
        assert (p, s) in run;
      } else {
        assert (p', s) in order;
      }
    }
  }

  lemma AppendRunAscending(data: Data, done: set<KeyDatatype>, order: seq<Entry>, p: KeyDatatype, run: seq<Entry>)
    requires EmittedSoFar(data, done, order) && p in data && p !in done
    requires SortedRun(p, data[p].Keys, run)
    ensures RunsAscending(order + run)
  {
    var all := order + run;
    forall i, j | 0 <= i < j < |all| && all[i].0 == all[j].0
      ensures KeyLess(all[i].1, all[j].1) && all[i + 1].0 == all[i].0
    {
      RunStep(data, done, order, p, run, i, j);
    }
  }

  lemma RunStep(data: Data, done: set<KeyDatatype>, order: seq<Entry>, p: KeyDatatype, run: seq<Entry>,
                i: nat, j: nat)
    requires EmittedSoFar(data, done, order) && p !in done
    requires p in data && SortedRun(p, data[p].Keys, run)
    requires i < j < |order + run|
    ensures (order + run)[i].0 == (order + run)[j].0 ==>
              KeyLess((order + run)[i].1, (order + run)[j].1) && (order + run)[i + 1].0 == (order + run)[i].0
  {
    var all, n := order + run, |order|;
    if j < n {
      assert all[i] == order[i] && all[j] == order[j] && all[i + 1] == order[i + 1];
    } else if i >= n {
      assert all[i] == run[i - n] && all[j] == run[j - n] && all[i + 1] == run[i + 1 - n];
    } else {
      assert all[i] == order[i] && order[i].0 in done;
      assert all[j] == run[j - n] && run[j - n].0 == p;
    }
  }

  /** Taking the least remaining sort key extends the partition's ascending run. */
  lemma ExtendRun(p: KeyDatatype, keys: set<KeyDatatype>, remaining: set<KeyDatatype>, run: seq<Entry>,
                  s: KeyDatatype, d: KeyDatatype)
    requires remaining <= keys && s in remaining
    requires forall t :: t in remaining ==> SameVariant(t, d)
    requires SortedRun(p, keys - remaining, run)
    requires forall i, t :: 0 <= i < |run| && t in remaining ==> KeyLess(run[i].1, t)
    requires forall t :: t in remaining ==> SameVariant(s, t) && Cmp(s, t) != Greater
    ensures SortedRun(p, keys - (remaining - {s}), run + [(p, s)])
    ensures forall i, t :: 0 <= i < |run + [(p, s)]| && t in remaining - {s} ==>
              KeyLess((run + [(p, s)])[i].1, t)
  {
    var run' := run + [(p, s)];
    forall t | t in remaining - {s} ensures KeyLess(s, t) {
      CmpAntisymmetric(s, t);
    }
    forall i, j | 0 <= i < j < |run'| ensures KeyLess(run'[i].1, run'[j].1) {
      if j < |run| { assert run'[i] == run[i] && run'[j] == run[j]; }
      else { assert run'[i] == run[i] && run'[j] == (p, s); }
    }
    forall t | t in keys - (remaining - {s}) ensures (p, t) in run' {
      if t != s { assert (p, t) in run; }
      else { assert run'[|run|] == (p, s); }
    }
    forall i | 0 <= i < |run'| ensures run'[i].0 == p && run'[i].1 in keys - (remaining - {s}) {
      if i < |run| { assert run'[i] == run[i]; }
    }
  }

  /** In well keyed data every sort value has the sort key's variant. */
  lemma SortKeysOneVariant(pk: Key, sk: Key, data: Data)
    requires WellKeyed(pk, sk, data)
    ensures forall p, t :: p in data && t in data[p] ==> SameVariant(t, sk.dtype)
  {
  }

  /** The document walk of `read_table`: partitions in whatever order the partition map
      yields them, each partition's documents least sort key first. Picking the least
      remaining sort key compares keys with `Cmp`, which is defined only because every sort
      value has one variant. */
  method ListData(data: Data, d: KeyDatatype) returns (output: seq<Value>, ghost order: seq<Entry>)
    requires forall p, t :: p in data && t in data[p] ==> SameVariant(t, d)
    ensures ListsInTableOrder(data, order)
    ensures output == DocsAt(data, order)
  {
    output := [];
    order := [];
    var pending := data.Keys;
    while pending != {}
      invariant pending <= data.Keys
      invariant EmittedSoFar(data, data.Keys - pending, order)
      invariant output == DocsAt(data, order)
      decreases pending
    {
      var p :| p in pending;
      var docs, run := ListPartition(p, data[p], d);
      ExtendListing(data, pending, order, p, run, docs);
      output := output + docs;
      order := order + run;
      pending := pending - {p};
    }
    assert data.Keys - {} == data.Keys;
  }

  /** One step of the walk: listing partition `p` after the partitions already listed. */
  lemma ExtendListing(data: Data, pending: set<KeyDatatype>, order: seq<Entry>, p: KeyDatatype,
                      run: seq<Entry>, docs: seq<Value>)
    requires pending <= data.Keys && p in pending
    requires EmittedSoFar(data, data.Keys - pending, order)
    requires SortedRun(p, data[p].Keys, run)
    requires |docs| == |run| && forall i :: 0 <= i < |run| ==> docs[i] == data[p][run[i].1]
    ensures EmittedSoFar(data, data.Keys - (pending - {p}), order + run)
    ensures DocsAt(data, order + run) == DocsAt(data, order) + docs
  {
    DocsAtConcat(data, order, p, run, docs);
    AppendRun(data, data.Keys - pending, order, p, run);
    assert data.Keys - pending + {p} == data.Keys - (pending - {p});
  }

  /** Listing a partition's run after a listing appends that run's documents. */
  lemma DocsAtConcat(data: Data, order: seq<Entry>, p: KeyDatatype, run: seq<Entry>, docs: seq<Value>)
    requires Stored(data, order) && p in data && SortedRun(p, data[p].Keys, run)
    requires |docs| == |run| && forall i :: 0 <= i < |run| ==> docs[i] == data[p][run[i].1]
    ensures Stored(data, order + run)
    ensures DocsAt(data, order + run) == DocsAt(data, order) + docs
  {
    var all := order + run;
    forall i | 0 <= i < |all| ensures all[i].0 in data && all[i].1 in data[all[i].0] {
      if i >= |order| { assert all[i] == run[i - |order|]; } else { assert all[i] == order[i]; }
    }
    var lhs, rhs := DocsAt(data, all), DocsAt(data, order) + docs;
    assert forall i :: 0 <= i < |all| ==> lhs[i] == rhs[i];
  }

  /** The walk over one partition's sort keys, least first (a `BTreeMap` yields its entries in
      ascending key order): the partition's documents, in the order of an ascending run. */
  method ListPartition(p: KeyDatatype, inner: Partition, d: KeyDatatype)
    returns (docs: seq<Value>, ghost run: seq<Entry>)
    requires forall t :: t in inner ==> SameVariant(t, d)
    ensures SortedRun(p, inner.Keys, run)
    ensures |docs| == |run| && forall i :: 0 <= i < |run| ==> docs[i] == inner[run[i].1]
  {
    docs, run := [], [];
    var remaining := inner.Keys;
    while remaining != {}
      invariant remaining <= inner.Keys
      invariant SortedRun(p, inner.Keys - remaining, run)
      invariant forall i, t :: 0 <= i < |run| && t in remaining ==> KeyLess(run[i].1, t)
      invariant |docs| == |run| && forall i :: 0 <= i < |run| ==> docs[i] == inner[run[i].1]
      decreases remaining
    {
      LeastByCmp(remaining, d);
      var s :| s in remaining && forall t :: t in remaining ==> SameVariant(s, t) && Cmp(s, t) != Greater;
      ExtendRun(p, inner.Keys, remaining, run, s, d);
      docs := docs + [inner[s]];
      run := run + [(p, s)];
      remaining := remaining - {s};
    }
    assert inner.Keys - {} == inner.Keys;
  }

  // ---------------------------------------------------------------------------------------
  // Reading a table back

  /** The data without its emptied partitions. */
  function Pruned(data: Data): (r: Data)
    ensures forall p :: p in r <==> p in data && data[p] != map[]
    ensures forall p :: p in r ==> r[p] == data[p]
  {
    map p | p in data && data[p] != map[] :: data[p]
  }

  /** A listed document's keys extract to the address it is listed at. */
  lemma ListingExtracts(pk: Key, sk: Key, data: Data, order: seq<Entry>, j: nat)
    requires WellKeyed(pk, sk, data) && Stored(data, order) && j < |order|
    ensures ExtractPair(pk, sk, DocsAt(data, order)[j]) == Ok(order[j])
  {
    assert DocsAt(data, order)[j] == data[order[j].0][order[j].1];
  }

  /** Every document of a listing extracts, so loading the listing succeeds. */
  lemma ListingLoads(pk: Key, sk: Key, data: Data, order: seq<Entry>)
    requires WellKeyed(pk, sk, data) && Stored(data, order)
    ensures LoadDocs(pk, sk, DocsAt(data, order)).Ok?
  {
    var docs := DocsAt(data, order);
    forall j | 0 <= j < |docs| ensures ExtractPair(pk, sk, docs[j]).Ok? {
      ListingExtracts(pk, sk, data, order, j);
    }
  }

  /** What loading a listing stores is stored in the data it lists, at the same address. */
  lemma LoadListingSound(pk: Key, sk: Key, data: Data, order: seq<Entry>, p: KeyDatatype, s: KeyDatatype)
    requires WellKeyed(pk, sk, data) && Stored(data, order)
    requires LoadDocs(pk, sk, DocsAt(data, order)).Ok?
    requires p in LoadDocs(pk, sk, DocsAt(data, order)).value
    requires s in LoadDocs(pk, sk, DocsAt(data, order)).value[p]
    ensures p in data && s in data[p] && LoadDocs(pk, sk, DocsAt(data, order)).value[p][s] == data[p][s]
  {
    var docs := DocsAt(data, order);
    LoadStoresOnlyListed(pk, sk, docs, p, s);
    var j :| 0 <= j < |docs| && ExtractPair(pk, sk, docs[j]) == Ok((p, s)) &&
             LoadDocs(pk, sk, docs).value[p][s] == docs[j];
    ListingExtracts(pk, sk, data, order, j);
  }

  /** No address occurs twice in `order`. */
  ghost predicate Distinct(order: seq<Entry>) {
    forall i, j :: 0 <= i < j < |order| ==> order[i] != order[j]
  }

  /** Loading a listing without repeated addresses stores every document it lists. */
  lemma LoadListingComplete(pk: Key, sk: Key, data: Data, order: seq<Entry>, j: nat)
    requires WellKeyed(pk, sk, data) && Stored(data, order) && Distinct(order) && j < |order|
    requires LoadDocs(pk, sk, DocsAt(data, order)).Ok?
    ensures Lookup(LoadDocs(pk, sk, DocsAt(data, order)).value, order[j].0, order[j].1) ==
            data[order[j].0][order[j].1]
    ensures data[order[j].0][order[j].1].JObj?
  {
    var docs := DocsAt(data, order);
    ListingExtracts(pk, sk, data, order, j);
    forall i | j < i < |docs| ensures ExtractPair(pk, sk, docs[i]) != ExtractPair(pk, sk, docs[j]) {
      ListingExtracts(pk, sk, data, order, i);
    }
    LoadKeepsLastDocument(pk, sk, docs, j);
  }

  /** Loading the documents of a listing, in listing order, rebuilds the data the listing came
      from, less its emptied partitions. */
  lemma LoadListing(pk: Key, sk: Key, data: Data, order: seq<Entry>)
    requires WellKeyed(pk, sk, data) && ListsInTableOrder(data, order)
    ensures LoadDocs(pk, sk, DocsAt(data, order)) == Ok(Pruned(data))
  {
    var docs := DocsAt(data, order);
    ListingLoads(pk, sk, data, order);
    var m := LoadDocs(pk, sk, docs).value;
    LoadedPartitionsNonEmpty(pk, sk, docs);
    assert Distinct(order) by {
      forall i, j | 0 <= i < j < |order| ensures order[i] != order[j] {
        ListedOnce(data, order, i, j);
      }
    }
    assert Covers(data, data.Keys, order);
    ListingStoresAll(pk, sk, data, order);
    forall p, s | p in m && s in m[p] ensures p in data && s in data[p] {
      LoadListingSound(pk, sk, data, order, p, s);
    }
    SameDataPruned(m, data);
  }

  /** Loading a listing without repeats that covers all of `data` stores all of `data`. */
  lemma ListingStoresAll(pk: Key, sk: Key, data: Data, order: seq<Entry>)
    requires WellKeyed(pk, sk, data) && Stored(data, order) && Distinct(order)
    requires Covers(data, data.Keys, order)
    requires LoadDocs(pk, sk, DocsAt(data, order)).Ok?
    ensures var m := LoadDocs(pk, sk, DocsAt(data, order)).value;
            forall p, s :: p in data && s in data[p] ==> p in m && s in m[p] && m[p][s] == data[p][s]
  {
    var m := LoadDocs(pk, sk, DocsAt(data, order)).value;
    forall p, s | p in data && s in data[p] ensures p in m && s in m[p] && m[p][s] == data[p][s] {
      assert (p, s) in order;
      var j :| 0 <= j < |order| && order[j] == (p, s);
      LoadListingComplete(pk, sk, data, order, j);
    }
  }

  /** A two-level map holding exactly the documents of `data`, with no empty partition, is
      `data` without its emptied partitions. */
  lemma SameDataPruned(m: Data, data: Data)
    requires forall p, s :: p in data && s in data[p] ==> p in m && s in m[p] && m[p][s] == data[p][s]
    requires forall p, s :: p in m && s in m[p] ==> p in data && s in data[p]
    requires forall p :: p in m ==> m[p] != map[]
    ensures m == Pruned(data)
  {
    var pruned := Pruned(data);
    forall p | p in m ensures p in pruned && m[p] == pruned[p] {
      var s0 :| s0 in m[p];
      assert m[p].Keys == data[p].Keys;
    }
    forall p | p in pruned ensures p in m {
      var s :| s in data[p];
    }
    assert m.Keys == pruned.Keys;
  }

  /** A rendered table passes the name and key-descriptor checks of `Table::new`. */
  lemma RenderPassesChecks(st: TableState, docs: seq<Value>)
    ensures CheckStringFieldsExist(Render(st, docs), ["table_name"]).Ok?
    ensures CheckKeyFieldsExist(Render(st, docs), ["primary_key", "sort_key"]).Ok?
  {
    var v := Render(st, docs);
    assert Index(v, "table_name") == JStr(st.name);
    assert Index(v, "primary_key") == KeyDescriptor(st.primaryKey);
    assert Index(v, "sort_key") == KeyDescriptor(st.sortKey);
    var fields := ["primary_key", "sort_key"];
    assert fields[0] == "primary_key" && fields[1] == "sort_key";
    assert ["table_name"][0] == "table_name";
  }

  /** `Table::new` past both checks, written out. */
  lemma NewTableOk(info: Value)
    requires CheckStringFieldsExist(info, ["table_name"]).Ok?
    requires CheckKeyFieldsExist(info, ["primary_key", "sort_key"]).Ok?
    ensures Index(info, "table_name").JStr?
    ensures Index(Index(info, "primary_key"), "name").JStr? && Index(Index(info, "sort_key"), "name").JStr?
    ensures var pk, sk := DescriptorKey(Index(info, "primary_key")), DescriptorKey(Index(info, "sort_key"));
            var loaded := BulkLoad(pk, sk, info);
            NewTable(info) == Ok(TableState(Index(info, "table_name").s, pk, sk,
                                            if loaded.Ok? then loaded.value else map[]))
  {
    assert ["table_name"][0] == "table_name";
    var fields := ["primary_key", "sort_key"];
    assert fields[0] == "primary_key" && fields[1] == "sort_key";
  }

  /** `Table::new` on a rendered table restores its name and keys, and loads the documents. */
  lemma NewTableOfRender(st: TableState, docs: seq<Value>)
    requires st.primaryKey.dtype == FromStr(st.primaryKey.name)
    requires st.sortKey.dtype == FromStr(st.sortKey.name)
    requires LoadDocs(st.primaryKey, st.sortKey, docs).Ok?
    ensures NewTable(Render(st, docs)) == Ok(st.(data := LoadDocs(st.primaryKey, st.sortKey, docs).value))
  {
    var v := Render(st, docs);
    RenderPassesChecks(st, docs);
    RenderFields(st, docs);
    NewTableOk(v);
    DescriptorKeyOf(st.primaryKey);
    DescriptorKeyOf(st.sortKey);
  }

  /** The fields of a rendered table. */
  lemma RenderFields(st: TableState, docs: seq<Value>)
    ensures Index(Render(st, docs), "table_name") == JStr(st.name)
    ensures Index(Render(st, docs), "primary_key") == KeyDescriptor(st.primaryKey)
    ensures Index(Render(st, docs), "sort_key") == KeyDescriptor(st.sortKey)
    ensures Get(Render(st, docs), "data") == Some(JArr(docs))
  {
  }

  /** A key whose datatype follows its name is read back from its descriptor unchanged. */
  lemma DescriptorKeyOf(key: Key)
    requires key.dtype == FromStr(key.name)
    ensures Index(KeyDescriptor(key), "name").JStr? && DescriptorKey(KeyDescriptor(key)) == key
  {
  }

  /** What `read_table` produces is a valid `Table::new` payload, and it yields the same table
      again, less its emptied partitions: saving and reloading a table keeps every document. */
  lemma ReloadRendering(st: TableState, v: Value)
    requires Wellformed(st) && IsRendering(st, v)
    ensures NewTable(v) == Ok(st.(data := Pruned(st.data)))
  {
    var order :| ListsInTableOrder(st.data, order) && v == Render(st, DocsAt(st.data, order));
    LoadListing(st.primaryKey, st.sortKey, st.data, order);
    NewTableOfRender(st, DocsAt(st.data, order));
  }

  // ---------------------------------------------------------------------------------------
  // The table object

  /** `Table`: name and keys are fixed at construction; the data is updated in place. */
  class Table {
    const tableName: string
    const primaryKey: Key
    const sortKey: Key
    var data: Data

    function State(): TableState
      reads this
    {
      TableState(tableName, primaryKey, sortKey, data)
    }

    ghost predicate Valid()
      reads this
    {
      Wellformed(State())
    }

    /** The struct literal of `Table::new`: named keys and an empty map. The keys are the ones
        `Table::new` builds, whose datatype follows from the name. */
    constructor (name: string, pk: Key, sk: Key)
      requires pk.dtype == FromStr(pk.name) && sk.dtype == FromStr(sk.name)
      ensures tableName == name && primaryKey == pk && sortKey == sk && data == map[]
      ensures Valid()
    {
      tableName := name;
      primaryKey := pk;
      sortKey := sk;
      data := map[];
    }

    /** `Table::new`. */
    static method New(info: Value) returns (r: Errors.Result<Table>)
      ensures r.Err? ==> NewTable(info) == Err(r.error)
      ensures r.Ok? ==> fresh(r.value) && r.value.Valid() && NewTable(info) == Ok(r.value.State())
    {
      var nameCheck := CheckStringFieldsExist(info, ["table_name"]);
      if nameCheck.Err? {
        return Err(nameCheck.error);
      }
      var keyCheck := CheckKeyFieldsExist(info, ["primary_key", "sort_key"]);
      if keyCheck.Err? {
        return Err(keyCheck.error);
      }
      var fields := ["primary_key", "sort_key"];
      assert fields[0] == "primary_key" && fields[1] == "sort_key";
      assert ["table_name"][0] == "table_name";
      var t := new Table(Index(info, "table_name").s,
                         DescriptorKey(Index(info, "primary_key")),
                         DescriptorKey(Index(info, "sort_key")));
      var loaded := t.Load(info);
      if loaded.Ok? {
        t.data := loaded.value;
      }
      return Ok(t);
    }

    /** `Table::load`: bulk-load the `data` array with this table's keys. */
    method Load(info: Value) returns (r: Errors.Result<Data>)
      ensures r == BulkLoad(primaryKey, sortKey, info)
    {
      if Get(info, "data").None? {
        return Err(MissingFields("Must contain field data"));
      }
      var d := info.fields["data"];
      if !d.JArr? {
        return Err(BadInput("data must be valid JSON array"));
      }
      var docs := d.items;
      var output: Data := map[];
      for i := 0 to |docs|
        invariant LoadDocs(primaryKey, sortKey, docs[..i]) == Ok(output)
      {
        assert docs[..i + 1][..i] == docs[..i] && docs[..i + 1][i] == docs[i];
        LoadDocsUnfold(primaryKey, sortKey, docs[..i + 1]);
        var pk := ExtractKey(primaryKey, docs[i]);
        if pk.Err? {
          LoadDocsFailureSticks(primaryKey, sortKey, docs, i + 1);
          return Err(pk.error);
        }
        var sk := ExtractKey(sortKey, docs[i]);
        if sk.Err? {
          LoadDocsFailureSticks(primaryKey, sortKey, docs, i + 1);
          return Err(sk.error);
        }
        var inner := if pk.value in output then output[pk.value] else map[];
        output := output[pk.value := inner[sk.value := docs[i]]];
      }
      assert docs[..|docs|] == docs;
      return Ok(output);
    }

    /** `read_table`: the name, both key descriptors and every document, partition by
        partition and in ascending sort-key order within a partition. */
    method ReadTable() returns (r: Errors.Result<Value>, ghost order: seq<Entry>)
      requires Valid()
      ensures ListsInTableOrder(data, order)
      ensures r == Ok(Render(State(), DocsAt(data, order)))
    {
      SortKeysOneVariant(primaryKey, sortKey, data);
      var docs;
      docs, order := ListData(data, sortKey.dtype);
      r := Ok(Render(State(), docs));
    }

    /** `create_document`. */
    method CreateDocument(info: Value) returns (r: Errors.Result<Value>)
      requires Valid()
      modifies this
      ensures Valid()
      ensures (r, State()) == CreateStep(old(State()), info)
    {
      StepsPreserveWellformed(State(), info);
      var pk := ExtractKey(primaryKey, info);
      if pk.Err? {
        return Err(pk.error);
      }
      var sk := ExtractKey(sortKey, info);
      if sk.Err? {
        return Err(sk.error);
      }
      var inner := if pk.value in data then data[pk.value] else map[];
      data := data[pk.value := inner[sk.value := info]];
      return Ok(NullVal);
    }

    /** `read_document`. */
    method ReadDocument(info: Value) returns (r: Errors.Result<Value>)
      requires Valid()
      ensures r == ReadStep(State(), info)
    {
      var pk := ExtractKey(primaryKey, info);
      if pk.Err? {
        return Err(pk.error);
      }
      var sk := ExtractKey(sortKey, info);
      if sk.Err? {
        return Err(sk.error);
      }
      if pk.value !in data {
        return Ok(NullVal);
      }
      var inner := data[pk.value];
      if sk.value !in inner {
        return Ok(NullVal);
      }
      return Ok(inner[sk.value]);
    }

    /** `update_document`; a payload whose partition exists but whose document does not, or
        whose stored document is not an object, makes the Rust code panic, so those cases are
        excluded. */
    method UpdateDocument(info: Value) returns (r: Errors.Result<Value>)
      requires Valid() && UpdateDefined(State(), info)
      modifies this
      ensures Valid()
      ensures (r, State()) == UpdateStep(old(State()), info)
    {
      StepsPreserveWellformed(State(), info);
      var pk := ExtractKey(primaryKey, info);
      if pk.Err? {
        return Err(pk.error);
      }
      var sk := ExtractKey(sortKey, info);
      if sk.Err? {
        return Err(sk.error);
      }
      if pk.value !in data {
        return Ok(NullVal);
      }
      var inner := data[pk.value];
      var doc := inner[sk.value];
      var merged := MergeFields(doc.fields, info.fields);
      data := data[pk.value := inner[sk.value := JObj(merged)]];
      return Ok(NullVal);
    }

    /** `delete_document`. */
    method DeleteDocument(info: Value) returns (r: Errors.Result<Value>)
      requires Valid()
      modifies this
      ensures Valid()
      ensures (r, State()) == DeleteStep(old(State()), info)
    {
      StepsPreserveWellformed(State(), info);
      var pk := ExtractKey(primaryKey, info);
      if pk.Err? {
        return Err(pk.error);
      }
      var sk := ExtractKey(sortKey, info);
      if sk.Err? {
        return Err(sk.error);
      }
      if pk.value !in data {
        return Ok(NullVal);
      }
      data := data[pk.value := data[pk.value] - {sk.value}];
      return Ok(NullVal);
    }
  }

  /** The field-by-field insertion loop of `update_document`. */
  method MergeFields(base: map<string, Value>, patch: map<string, Value>) returns (out: map<string, Value>)
    ensures out == ShallowMerge(base, patch)
  {
    out := base;
    var remaining := patch.Keys;
    while remaining != {}
      invariant remaining <= patch.Keys
      invariant out.Keys == base.Keys + (patch.Keys - remaining)
      invariant forall k :: k in out ==> out[k] == if k in patch && k !in remaining then patch[k] else base[k]
      decreases remaining
    {
      var k :| k in remaining;
      out := out[k := patch[k]];
      remaining := remaining - {k};
    }
  }
}
