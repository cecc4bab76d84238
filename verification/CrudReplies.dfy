/** What the client is told: for every request the reply, written out, and the store. */
module CrudReplies {
  import opened Outcomes
  import opened Bson
  import opened MongoStore
  import opened MongoInterface
  import opened CrudHandler
  import opened CrudRequests
  import opened CrudRuns
  import opened Sequences

  ghost predicate Posts(driver: Driver, req: Request, cmd: Command) {
    req.verb == "POST" && Asked(driver, req, cmd)
  }

  function Items(entries: seq<Document>): seq<Value> {
    seq(|entries|, i requires 0 <= i < |entries| => Doc(entries[i]))
  }

  /** The data of a read: one field holding the entries in their order. */
  function Data(key: string, items: seq<Value>): ResultDoc {
    OkData([Field(key, Arr(items))])
  }

  lemma {:induction false} AsValuesItems(entries: seq<Document>)
    ensures AsValues(entries) == Items(entries)
  {
    if |entries| > 0 {
      AsValuesItems(entries[..|entries| - 1]);
    }
  }

  // ---------------------------------------------------------------- requests that stand for nothing

  /** A POST that asks for no command is refused with its reason and changes nothing. */
  lemma {:induction false} RefusedReply(driver: Driver, req: Request, fault: bool, store: Store)
    requires req.verb == "POST" && forall cmd :: !Asked(driver, req, cmd)
    ensures CommandOf(driver, req).Failure?
    ensures Answer(driver, req, fault, store) ==
            (Reply(StatusOk, true, Some(Error(CommandOf(driver, req).error))), store)
  {
    if CommandOf(driver, req).Success? {
      UnderstoodOnlyAsSaid(driver, req, CommandOf(driver, req).value);
    }
  }

  // ---------------------------------------------------------------- writes

  /** When a write succeeds: an empty argument always, otherwise unless its call throws or
      the server refuses it. */
  predicate Succeeds(driver: Driver, cmd: Command, fault: bool, store: Store) {
    match cmd
    case CreateDB(name) => !fault && Namespace(name, "DummyCollection") !in store
    case CreateCollection(ns) => !fault && ns !in store
    case CreateIndex(ns, keys, options) =>
      var index := driver.makeIndex(keys, options);
      keys == [] || (!fault && IndexNamed(CollectionAt(store, ns).indexes, index.name) in {None, Some(index)})
    case UpdateCollection(db, oldName, newName) =>
      !fault && Namespace(db, oldName) in store && Namespace(db, newName) !in store
    case UpdateDocument(_, _, _, update) => update == [] || !fault
    case DeleteDocument(_, _, filter) => filter == [] || !fault
    case DeleteIndex(ns, name) =>
      !fault && ns in store && name != "_id_" && IndexNamed(store[ns].indexes, name).Some?
    case _ => !fault
  }

  /** A write is answered "ok" exactly when it succeeds, and then with no data; otherwise
      with the driver's error and the store as it was. */
  lemma {:induction false} WriteReply(driver: Driver, req: Request, cmd: Command, fault: bool, store: Store)
    requires Posts(driver, req, cmd) && !IsRead(cmd)
    ensures Succeeds(driver, cmd, fault, store) <==> Write(driver, cmd, fault, store).Success?
    ensures Answer(driver, req, fault, store) ==
            if Succeeds(driver, cmd, fault, store)
            then (Reply(StatusOk, true, Some(Ok)), Write(driver, cmd, fault, store).value)
            else (Reply(StatusOk, true, Some(Error(DriverError))), store)
  {
    RequestRoundTrip(driver, req, cmd);
  }

  // ---------------------------------------------------------------- reads

  lemma {:induction false} ReadReply(
      driver: Driver, req: Request, cmd: Command, fault: bool, store: Store,
      entries: Result<seq<Document>, Reason>, items: seq<Value>)
    requires Posts(driver, req, cmd) && IsRead(cmd) && ReadEntries(driver, cmd, fault, store) == entries
    requires entries.Success? ==> Items(entries.value) == items
    ensures Answer(driver, req, fault, store) ==
            (Reply(StatusOk, true, Some(if entries.Success? then Data(ReadKey(cmd), items) else Error(entries.error))),
             store)
  {
    RequestRoundTrip(driver, req, cmd);
    if entries.Success? {
      AsValuesItems(entries.value);
    }
  }

  predicate HasDatabase(store: Store, db: string) {
    exists ns :: ns in store && ns.db == db
  }

  function DatabaseItem(driver: Driver, name: string): Value {
    Doc([Field("name", Str(name))] + driver.describe(name))
  }

  function CollectionItem(name: string): Value {
    Doc([Field("name", Str(name)), Field("type", Str("collection"))])
  }

  function IndexItem(index: Index): Value {
    Doc([Field("name", Str(index.name))] + index.spec)
  }

  function DatabaseItems(driver: Driver, names: seq<string>): seq<Value> {
    seq(|names|, i requires 0 <= i < |names| => DatabaseItem(driver, names[i]))
  }

  function CollectionItems(names: seq<string>): seq<Value> {
    seq(|names|, i requires 0 <= i < |names| => CollectionItem(names[i]))
  }

  function IndexItems(indexes: seq<Index>): seq<Value> {
    seq(|indexes|, i requires 0 <= i < |indexes| => IndexItem(indexes[i]))
  }

  function NotFound(text: string): Value {
    Doc([Field("error", Str(text))])
  }

  /** A named database read: the entry of that database, or one error entry. */
  lemma {:induction false} DatabaseReadReply(driver: Driver, req: Request, name: string, fault: bool, store: Store)
    requires Faithful(driver) && Posts(driver, req, ReadDB(name, false))
    ensures var item := if HasDatabase(store, name) then DatabaseItem(driver, name) else NotFound("Database not found");
            Answer(driver, req, fault, store) ==
            (Reply(StatusOk, true, Some(if fault then Error(DriverError) else Data("databases", [item]))), store)
  {
    DatabaseReadTellsTruth(driver, name, store);
    var entries := ReadEntries(driver, ReadDB(name, false), fault, store);
    var item := if HasDatabase(store, name) then DatabaseItem(driver, name) else NotFound("Database not found");
    ReadReply(driver, req, ReadDB(name, false), fault, store, entries, [item]);
  }

  /** All databases, each once. */
  lemma {:induction false} DatabaseListReply(driver: Driver, req: Request, name: string, fault: bool, store: Store)
    requires Faithful(driver) && Posts(driver, req, ReadDB(name, true))
    ensures var names := driver.order(DbNames(store));
            && Distinct(names) && (forall db :: db in names <==> HasDatabase(store, db))
            && Answer(driver, req, fault, store) ==
               (Reply(StatusOk, true, Some(
                  if fault then Error(DriverError)
                  else Data("databases", DatabaseItems(driver, names)))),
                store)
  {
    var names := driver.order(DbNames(store));
    OrderIsDistinct(names, DbNames(store));
    var entries := ReadEntries(driver, ReadDB(name, true), fault, store);
    assert !fault ==> entries == Success(ListDatabases(driver, store));
    assert Items(ListDatabases(driver, store)) == DatabaseItems(driver, names);
    ReadReply(driver, req, ReadDB(name, true), fault, store, entries, DatabaseItems(driver, names));
  }

  /** A named collection read: the name and type of that collection, or one error entry. */
  lemma {:induction false} CollectionReadReply(driver: Driver, req: Request, ns: Namespace, fault: bool, store: Store)
    requires Faithful(driver) && Posts(driver, req, ReadCollection(ns, false))
    ensures var item := if ns in store then CollectionItem(ns.coll) else NotFound("Collection not found");
            Answer(driver, req, fault, store) ==
            (Reply(StatusOk, true, Some(if fault then Error(DriverError) else Data("collections", [item]))), store)
  {
    CollectionReadTellsTruth(driver, ns, store);
    var entries := ReadEntries(driver, ReadCollection(ns, false), fault, store);
    var item := if ns in store then CollectionItem(ns.coll) else NotFound("Collection not found");
    ReadReply(driver, req, ReadCollection(ns, false), fault, store, entries, [item]);
  }

  /** All collections of a database, each once. */
  lemma {:induction false} CollectionListReply(driver: Driver, req: Request, ns: Namespace, fault: bool, store: Store)
    requires Faithful(driver) && Posts(driver, req, ReadCollection(ns, true))
    ensures var names := driver.order(CollNames(store, ns.db));
            && Distinct(names) && (forall coll :: coll in names <==> Namespace(ns.db, coll) in store)
            && Answer(driver, req, fault, store) ==
               (Reply(StatusOk, true, Some(
                  if fault then Error(DriverError)
                  else Data("collections", CollectionItems(names)))),
                store)
  {
    var names := driver.order(CollNames(store, ns.db));
    OrderIsDistinct(names, CollNames(store, ns.db));
    forall coll ensures coll in names <==> Namespace(ns.db, coll) in store {
      assert coll in CollNames(store, ns.db) <==> Namespace(ns.db, coll) in store;
    }
    CollectionsShown(driver, ListCollections(driver, store, ns.db), names);
    var entries := ReadEntries(driver, ReadCollection(ns, true), fault, store);
    ReadReply(driver, req, ReadCollection(ns, true), fault, store, entries, CollectionItems(names));
  }

  lemma {:induction false} CollectionsShown(driver: Driver, listing: seq<Document>, names: seq<string>)
    requires |listing| == |names|
    requires forall i :: 0 <= i < |names| ==> listing[i] == CollEntry(driver, names[i])
    ensures ProjectAll(listing).Success?
    ensures Items(ProjectAll(listing).value) == CollectionItems(names)
  {
    ProjectAllPointwise(listing);
    forall i | 0 <= i < |names|
      ensures Projected(listing[i]).Success? && Doc(Projected(listing[i]).value) == CollectionItem(names[i])
    {
      EntryShown(driver, names[i]);
    }
  }

  lemma {:induction false} FirstIndexNamed(indexes: seq<Index>, listing: seq<Document>, name: string)
    requires |listing| == |indexes|
    requires forall i :: 0 <= i < |indexes| ==> listing[i] == IndexEntry(indexes[i])
    ensures FirstNamed(listing, name) ==
            Success(match IndexNamed(indexes, name)
                    case Some(index) => Some(IndexEntry(index))
                    case None => None)
  {
    if |indexes| > 0 {
      assert GetString(listing[0], "name") == Success(indexes[0].name);
      FirstIndexNamed(indexes[1..], listing[1..], name);
    }
  }

  /** An index read: all indexes in their order for the empty name, otherwise the one of
      that name, or nothing. */
  lemma {:induction false} IndexReadReply(
      driver: Driver, req: Request, ns: Namespace, name: string, fault: bool, store: Store)
    requires Posts(driver, req, ReadIndex(ns, name))
    ensures var indexes := if ns in store then store[ns].indexes else [];
            var k := IndexPosition(indexes, name);
            var items := if name == "" then IndexItems(indexes)
                         else if k < |indexes| then [IndexItem(indexes[k])] else [];
            Answer(driver, req, fault, store) ==
            (Reply(StatusOk, true, Some(if fault then Error(DriverError) else Data("indexes", items))), store)
  {
    var indexes := if ns in store then store[ns].indexes else [];
    var listing := ListIndexes(store, ns);
    FirstIndexNamed(indexes, listing, name);
    NamedAtPosition(indexes, name);
    assert Items(listing) == IndexItems(indexes);
    var k := IndexPosition(indexes, name);
    var items := if name == "" then IndexItems(indexes) else if k < |indexes| then [IndexItem(indexes[k])] else [];
    var entries := ReadEntries(driver, ReadIndex(ns, name), fault, store);
    ReadReply(driver, req, ReadIndex(ns, name), fault, store, entries, items);
  }

  lemma {:induction false} OptionErrors(options: Document)
    ensures ParseOptions(options).Failure? ==> ParseOptions(options).error == BadField
  {
  }

  /** A document read: what the search finds under the parsed options, in its order. A
      mistyped option is an error before the server is asked. */
  lemma {:induction false} DocumentReadReply(
      driver: Driver, req: Request, ns: Namespace, filter: Document, options: Document, fault: bool, store: Store)
    requires Posts(driver, req, ReadDocument(ns, filter, options))
    ensures var docs := if ns in store then store[ns].docs else [];
            Answer(driver, req, fault, store) ==
            (Reply(StatusOk, true, Some(
               match ParseOptions(options)
               case Failure(_) => Error(BadField)
               case Success(o) =>
                 if fault then Error(DriverError) else Data("documents", Items(driver.find(docs, filter, o))))),
             store)
  {
    var cmd := ReadDocument(ns, filter, options);
    var docs := if ns in store then store[ns].docs else [];
    var opts := ParseOptions(options);
    var items := if opts.Success? then Items(driver.find(docs, filter, opts.value)) else [];
    OptionErrors(options);
    ReadReply(driver, req, cmd, fault, store, ReadEntries(driver, cmd, fault, store), items);
  }

  /** The settings a client encodes are the settings the search runs with. */
  lemma {:induction false} FindReceivesOptions(
      driver: Driver, req: Request, ns: Namespace, filter: Document, o: FindOptions, store: Store)
    requires Posts(driver, req, ReadDocument(ns, filter, EncodeOptions(o)))
    ensures var docs := if ns in store then store[ns].docs else [];
            Answer(driver, req, false, store) ==
            (Reply(StatusOk, true, Some(Data("documents", Items(driver.find(docs, filter, o))))), store)
  {
    DocumentReadReply(driver, req, ns, filter, EncodeOptions(o), false, store);
    OptionsRoundTrip([], o);
  }
}
