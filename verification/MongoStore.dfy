/** The database server: what is stored, and what each driver call does to it. A call is
    atomic; it either throws without effect or succeeds. */
module MongoStore {
  import opened Outcomes
  import opened Bson
  import opened Sequences

  datatype Namespace = Namespace(db: string, coll: string)

  datatype Index = Index(name: string, spec: Document)

  datatype Collection = Collection(docs: seq<Document>, indexes: seq<Index>)

  /** A database exists as long as it has a collection. */
  type Store = map<Namespace, Collection>

  datatype FindOptions = FindOptions(
    allowDiskUse: Option<bool>,
    batchSize: Option<int>,
    limit: Option<int>,
    skip: Option<int>,
    sort: Option<Document>,
    projection: Option<Document>)

  /** The parts of the JSON parser, the driver and the server that stay abstract. */
  datatype Driver = Driver(
    parse: string -> Option<Document>,
    matches: (Document, Document) -> bool,
    updated: (Document, Document) -> Document,
    find: (seq<Document>, Document, FindOptions) -> seq<Document>,
    makeIndex: (Document, Document) -> Index,
    order: set<string> -> seq<string>,
    describe: string -> Document)

  /** Listings name everything once. */
  ghost predicate Faithful(driver: Driver) {
    forall names :: multiset(driver.order(names)) == multiset(names)
  }

  const ID_INDEX := Index("_id_", [])

  const NEW_COLLECTION := Collection([], [ID_INDEX])

  function CollectionAt(store: Store, ns: Namespace): Collection {
    if ns in store then store[ns] else NEW_COLLECTION
  }

  /** `create_collection` throws when the collection exists. */
  function Create(store: Store, ns: Namespace): Result<Store, Reason> {
    if ns in store then Failure(DriverError) else Success(store[ns := NEW_COLLECTION])
  }

  /** `insert_one` creates a missing collection. */
  function Insert(store: Store, ns: Namespace, doc: Document): Store {
    var c := CollectionAt(store, ns);
    store[ns := c.(docs := c.docs + [doc])]
  }

  /** `rename` throws when the source is missing or the target exists. */
  function Rename(store: Store, source: Namespace, target: Namespace): Result<Store, Reason> {
    if source !in store || target in store then Failure(DriverError)
    else Success((store - {source})[target := store[source]])
  }

  /** Every matching document, or the first one only. Nothing is ever added. */
  function UpdateDocs(driver: Driver, docs: seq<Document>, many: bool, filter: Document, update: Document)
    : seq<Document>
  {
    if |docs| == 0 then []
    else if !driver.matches(filter, docs[0]) then
      [docs[0]] + UpdateDocs(driver, docs[1..], many, filter, update)
    else
      [driver.updated(update, docs[0])] +
      if many then UpdateDocs(driver, docs[1..], many, filter, update) else docs[1..]
  }

  function DeleteDocs(driver: Driver, docs: seq<Document>, many: bool, filter: Document): seq<Document> {
    if |docs| == 0 then []
    else if !driver.matches(filter, docs[0]) then [docs[0]] + DeleteDocs(driver, docs[1..], many, filter)
    else if many then DeleteDocs(driver, docs[1..], many, filter)
    else docs[1..]
  }

  /** A missing collection has nothing to update or delete. */
  function Update(driver: Driver, store: Store, ns: Namespace, many: bool, filter: Document, update: Document): Store {
    if ns !in store then store
    else store[ns := store[ns].(docs := UpdateDocs(driver, store[ns].docs, many, filter, update))]
  }

  function Delete(driver: Driver, store: Store, ns: Namespace, many: bool, filter: Document): Store {
    if ns !in store then store
    else store[ns := store[ns].(docs := DeleteDocs(driver, store[ns].docs, many, filter))]
  }

  function DropDatabase(store: Store, db: string): Store {
    map ns | ns in store && ns.db != db :: store[ns]
  }

  /** `drop` on a missing collection is not an error. */
  function DropCollection(store: Store, ns: Namespace): Store {
    store - {ns}
  }

  function IndexNamed(indexes: seq<Index>, name: string): Option<Index> {
    if |indexes| == 0 then None
    else if indexes[0].name == name then Some(indexes[0])
    else IndexNamed(indexes[1..], name)
  }

  /** `create_index` creates a missing collection, accepts an index that is already there
      and throws when the name is taken by a different one. */
  function CreateIndex(store: Store, ns: Namespace, index: Index): Result<Store, Reason> {
    var c := CollectionAt(store, ns);
    match IndexNamed(c.indexes, index.name)
    case Some(found) => if found == index then Success(store[ns := c]) else Failure(DriverError)
    case None => Success(store[ns := c.(indexes := c.indexes + [index])])
  }

  function WithoutIndex(indexes: seq<Index>, name: string): seq<Index> {
    if |indexes| == 0 then []
    else if indexes[0].name == name then indexes[1..]
    else [indexes[0]] + WithoutIndex(indexes[1..], name)
  }

  /** `drop_one` throws when the collection or the index is missing, and for `_id_`. */
  function DropIndex(store: Store, ns: Namespace, name: string): Result<Store, Reason> {
    if ns !in store || name == ID_INDEX.name || IndexNamed(store[ns].indexes, name).None? then Failure(DriverError)
    else Success(store[ns := store[ns].(indexes := WithoutIndex(store[ns].indexes, name))])
  }

  function DbNames(store: Store): set<string> {
    set ns | ns in store :: ns.db
  }

  function CollNames(store: Store, db: string): set<string> {
    set ns | ns in store && ns.db == db :: ns.coll
  }

  function DbEntry(driver: Driver, name: string): Document {
    [Field("name", Str(name))] + driver.describe(name)
  }

  function CollEntry(driver: Driver, name: string): Document {
    [Field("name", Str(name)), Field("type", Str("collection"))] + driver.describe(name)
  }

  function IndexEntry(index: Index): Document {
    [Field("name", Str(index.name))] + index.spec
  }

  function ListDatabases(driver: Driver, store: Store): seq<Document> {
    var names := driver.order(DbNames(store));
    seq(|names|, i requires 0 <= i < |names| => DbEntry(driver, names[i]))
  }

  function ListCollections(driver: Driver, store: Store, db: string): seq<Document> {
    var names := driver.order(CollNames(store, db));
    seq(|names|, i requires 0 <= i < |names| => CollEntry(driver, names[i]))
  }

  /** `list_indexes` on a missing collection lists nothing. */
  function ListIndexes(store: Store, ns: Namespace): seq<Document> {
    if ns !in store then []
    else
      var indexes := store[ns].indexes;
      seq(|indexes|, i requires 0 <= i < |indexes| => IndexEntry(indexes[i]))
  }

  // ---------------------------------------------------------------- what the calls change

  /** The index of the first match, or the length. */
  function FirstMatch(driver: Driver, docs: seq<Document>, filter: Document): (k: nat)
    ensures k <= |docs|
    ensures forall i :: 0 <= i < k ==> !driver.matches(filter, docs[i])
    ensures k < |docs| ==> driver.matches(filter, docs[k])
  {
    if |docs| == 0 || driver.matches(filter, docs[0]) then 0 else 1 + FirstMatch(driver, docs[1..], filter)
  }

  lemma {:induction false} DeleteOneCutsFirst(driver: Driver, docs: seq<Document>, filter: Document)
    ensures var k := FirstMatch(driver, docs, filter);
            DeleteDocs(driver, docs, false, filter) == if k == |docs| then docs else docs[..k] + docs[k + 1..]
  {
    if |docs| > 0 && !driver.matches(filter, docs[0]) {
      DeleteOneCutsFirst(driver, docs[1..], filter);
      var k := FirstMatch(driver, docs[1..], filter);
      if k < |docs[1..]| {
        CutFromTail(docs, k);
      }
    }
  }

  lemma {:induction false} DeleteManyKeepsOthers(driver: Driver, docs: seq<Document>, filter: Document, d: Document)
    ensures multiset(DeleteDocs(driver, docs, true, filter))[d] ==
            if driver.matches(filter, d) then 0 else multiset(docs)[d]
  {
    if |docs| > 0 {
      DeleteManyKeepsOthers(driver, docs[1..], filter, d);
      assert docs == [docs[0]] + docs[1..];
    }
  }

  /** The documents after an update: each match rewritten in place, or the first one only. */
  ghost predicate Rewritten(
      driver: Driver, before: seq<Document>, after: seq<Document>, many: bool, filter: Document, update: Document)
  {
    && |after| == |before|
    && forall i :: 0 <= i < |before| ==>
         after[i] == if driver.matches(filter, before[i]) && (many || i == FirstMatch(driver, before, filter))
                     then driver.updated(update, before[i]) else before[i]
  }

  /** The documents after a delete: no match left and the others as often as before, or
      without the first match. */
  ghost predicate Purged(
      driver: Driver, before: seq<Document>, after: seq<Document>, many: bool, filter: Document)
  {
    if many then
      forall d :: multiset(after)[d] == if driver.matches(filter, d) then 0 else multiset(before)[d]
    else
      var k := FirstMatch(driver, before, filter);
      after == if k == |before| then before else before[..k] + before[k + 1..]
  }

  lemma {:induction false} UpdateRewrites(
      driver: Driver, docs: seq<Document>, many: bool, filter: Document, update: Document)
    ensures Rewritten(driver, docs, UpdateDocs(driver, docs, many, filter, update), many, filter, update)
  {
    if |docs| > 0 {
      UpdateRewrites(driver, docs[1..], many, filter, update);
    }
  }

  lemma {:induction false} DeletePurges(driver: Driver, docs: seq<Document>, many: bool, filter: Document)
    ensures Purged(driver, docs, DeleteDocs(driver, docs, many, filter), many, filter)
  {
    if many {
      forall d
        ensures multiset(DeleteDocs(driver, docs, true, filter))[d] ==
                if driver.matches(filter, d) then 0 else multiset(docs)[d]
      {
        DeleteManyKeepsOthers(driver, docs, filter, d);
      }
    } else {
      DeleteOneCutsFirst(driver, docs, filter);
    }
  }

  /** One collection is as it was, present or not. */
  ghost predicate SameAt(before: Store, after: Store, ns: Namespace) {
    (ns in after <==> ns in before) && (ns in before ==> after[ns] == before[ns])
  }

  /** Only the given collections may differ. */
  ghost predicate SameOutside(before: Store, after: Store, changed: set<Namespace>) {
    forall ns :: ns !in changed ==> SameAt(before, after, ns)
  }

  lemma {:induction false} UpdateChanges(
      driver: Driver, store: Store, ns: Namespace, many: bool, filter: Document, update: Document)
    requires ns in store
    ensures var after := Update(driver, store, ns, many, filter, update);
            && ns in after && SameOutside(store, after, {ns}) && after[ns].indexes == store[ns].indexes
            && Rewritten(driver, store[ns].docs, after[ns].docs, many, filter, update)
  {
    UpdateRewrites(driver, store[ns].docs, many, filter, update);
  }

  lemma {:induction false} DeleteChanges(driver: Driver, store: Store, ns: Namespace, many: bool, filter: Document)
    requires ns in store
    ensures var after := Delete(driver, store, ns, many, filter);
            && ns in after && SameOutside(store, after, {ns}) && after[ns].indexes == store[ns].indexes
            && Purged(driver, store[ns].docs, after[ns].docs, many, filter)
  {
    DeletePurges(driver, store[ns].docs, many, filter);
  }

  /** Where the first index of that name is, or the length. */
  function IndexPosition(indexes: seq<Index>, name: string): (k: nat)
    ensures k <= |indexes|
    ensures forall i :: 0 <= i < k ==> indexes[i].name != name
    ensures k < |indexes| ==> indexes[k].name == name
  {
    if |indexes| == 0 || indexes[0].name == name then 0 else 1 + IndexPosition(indexes[1..], name)
  }

  lemma {:induction false} NamedAtPosition(indexes: seq<Index>, name: string)
    ensures var k := IndexPosition(indexes, name);
            IndexNamed(indexes, name) == if k == |indexes| then None else Some(indexes[k])
  {
    if |indexes| > 0 && indexes[0].name != name {
      NamedAtPosition(indexes[1..], name);
    }
  }

  lemma {:induction false} WithoutCutsFirst(indexes: seq<Index>, name: string)
    ensures var k := IndexPosition(indexes, name);
            WithoutIndex(indexes, name) == if k == |indexes| then indexes else indexes[..k] + indexes[k + 1..]
  {
    if |indexes| > 0 && indexes[0].name != name {
      WithoutCutsFirst(indexes[1..], name);
      var k := IndexPosition(indexes[1..], name);
      if k < |indexes[1..]| {
        CutFromTail(indexes, k);
      }
    }
  }

  lemma {:induction false} WithoutAppended(indexes: seq<Index>, index: Index)
    requires IndexNamed(indexes, index.name).None?
    ensures WithoutIndex(indexes + [index], index.name) == indexes
    ensures IndexNamed(indexes + [index], index.name) == Some(index)
  {
    if |indexes| > 0 {
      WithoutAppended(indexes[1..], index);
      assert (indexes + [index])[1..] == indexes[1..] + [index];
    }
  }

  lemma {:induction false} NamedIsMember(indexes: seq<Index>, name: string)
    requires IndexNamed(indexes, name).Some?
    ensures IndexNamed(indexes, name).value in indexes
  {
    if indexes[0].name != name {
      NamedIsMember(indexes[1..], name);
    }
  }

  lemma {:induction false} IndexAdded(indexes: seq<Index>, index: Index)
    ensures IndexNamed(indexes, index.name).None? ==> IndexNamed(indexes + [index], index.name) == Some(index)
    ensures IndexNamed(indexes, index.name) == Some(index) ==> index in indexes
  {
    if IndexNamed(indexes, index.name).None? {
      WithoutAppended(indexes, index);
    } else {
      NamedIsMember(indexes, index.name);
    }
  }
}
