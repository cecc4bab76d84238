/** The operations of MongoDBInterface: what each request asks of the server, and the
    methods that carry it out with their search loops and empty-argument guards. */
module MongoInterface {
  import opened Outcomes
  import opened Bson
  import opened MongoStore

  datatype Command =
    | CreateDB(name: string)
    | CreateCollection(ns: Namespace)
    | CreateDocument(ns: Namespace, doc: Document)
    | CreateIndex(ns: Namespace, keys: Document, options: Document)
    | ReadDB(name: string, listAll: bool)
    | ReadCollection(ns: Namespace, listAll: bool)
    | ReadDocument(ns: Namespace, filter: Document, options: Document)
    | ReadIndex(ns: Namespace, indexName: string)
    | UpdateCollection(db: string, oldName: string, newName: string)
    | UpdateDocument(ns: Namespace, many: bool, filter: Document, update: Document)
    | DeleteDB(db: string)
    | DeleteCollection(ns: Namespace)
    | DeleteDocument(ns: Namespace, many: bool, filter: Document)
    | DeleteIndex(ns: Namespace, indexName: string)

  predicate IsRead(cmd: Command) {
    cmd.ReadDB? || cmd.ReadCollection? || cmd.ReadDocument? || cmd.ReadIndex?
  }

  /** The command reaches the server; with an empty argument some commands do not. */
  predicate CallsDriver(cmd: Command) {
    match cmd
    case CreateIndex(_, keys, _) => keys != []
    case UpdateDocument(_, _, _, update) => update != []
    case DeleteDocument(_, _, filter) => filter != []
    case _ => true
  }

  /** What a command that is carried out does to the store. */
  function Effect(driver: Driver, cmd: Command, store: Store): Result<Store, Reason> {
    match cmd
    case CreateDB(name) => Create(store, Namespace(name, "DummyCollection"))
    case CreateCollection(ns) => Create(store, ns)
    case CreateDocument(ns, doc) => Success(Insert(store, ns, doc))
    case CreateIndex(ns, keys, options) => MongoStore.CreateIndex(store, ns, driver.makeIndex(keys, options))
    case UpdateCollection(db, oldName, newName) => Rename(store, Namespace(db, oldName), Namespace(db, newName))
    case UpdateDocument(ns, many, filter, update) => Success(Update(driver, store, ns, many, filter, update))
    case DeleteDB(db) => Success(DropDatabase(store, db))
    case DeleteCollection(ns) => Success(DropCollection(store, ns))
    case DeleteDocument(ns, many, filter) => Success(Delete(driver, store, ns, many, filter))
    case DeleteIndex(ns, name) => DropIndex(store, ns, name)
    case _ => Success(store)
  }

  /** The state after a write; `fault` says whether the driver call throws. */
  function Write(driver: Driver, cmd: Command, fault: bool, store: Store): Result<Store, Reason> {
    if !CallsDriver(cmd) then Success(store)
    else if fault then Failure(DriverError)
    else Effect(driver, cmd, store)
  }

  // ---------------------------------------------------------------- what reads answer

  /** The first entry of the listing with that name. */
  function FirstNamed(listing: seq<Document>, name: string): Result<Option<Document>, Reason> {
    if |listing| == 0 then Success(None)
    else
      var found :- GetString(listing[0], "name");
      if found == name then Success(Some(listing[0])) else FirstNamed(listing[1..], name)
  }

  /** A collection entry is reduced to its name and type. */
  function Projected(entry: Document): Result<Document, Reason> {
    var name :- GetValue(entry, "name");
    var kind :- GetValue(entry, "type");
    Success([Field("name", name), Field("type", kind)])
  }

  function ProjectAll(listing: seq<Document>): Result<seq<Document>, Reason> {
    if |listing| == 0 then Success([])
    else
      var front :- ProjectAll(listing[..|listing| - 1]);
      var last :- Projected(listing[|listing| - 1]);
      Success(front + [last])
  }

  function OptionalBool(options: Document, name: string): Result<Option<bool>, Reason> {
    if Lookup(options, name).None? then Success(None)
    else
      var n :- GetInt32(options, name);
      Success(Some(n == 1))
  }

  function OptionalInt(options: Document, name: string): Result<Option<int>, Reason> {
    if Lookup(options, name).None? then Success(None)
    else
      var n :- GetInt32(options, name);
      Success(Some(n))
  }

  function OptionalDocument(options: Document, name: string): Result<Option<Document>, Reason> {
    if Lookup(options, name).None? then Success(None)
    else
      var d :- GetDocument(options, name);
      Success(Some(d))
  }

  function ParseOptions(options: Document): Result<FindOptions, Reason> {
    var allowDiskUse :- OptionalBool(options, "allow_disk_use");
    var batchSize :- OptionalInt(options, "batch_size");
    var limit :- OptionalInt(options, "limit");
    var skip :- OptionalInt(options, "skip");
    var sort :- OptionalDocument(options, "sort");
    var projection :- OptionalDocument(options, "projection");
    Success(FindOptions(allowDiskUse, batchSize, limit, skip, sort, projection))
  }

  const OPTION_KEYS := ["allow_disk_use", "batch_size", "limit", "skip", "sort", "projection"]

  function OptionField(name: string, value: Option<Value>): Document {
    if value.Some? then [Field(name, value.value)] else []
  }

  function IntValue(n: Option<int>): Option<Value> {
    if n.Some? then Some(Int32(n.value)) else None
  }

  function DocValue(d: Option<Document>): Option<Value> {
    if d.Some? then Some(Doc(d.value)) else None
  }

  function FlagValue(b: Option<bool>): Option<Value> {
    if b.Some? then Some(Int32(if b.value then 1 else 0)) else None
  }

  /** The values under OPTION_KEYS for given settings. */
  function OptionValues(o: FindOptions): (values: seq<Option<Value>>)
    ensures |values| == |OPTION_KEYS|
  {
    [FlagValue(o.allowDiskUse), IntValue(o.batchSize), IntValue(o.limit), IntValue(o.skip),
     DocValue(o.sort), DocValue(o.projection)]
  }

  function FieldsOf(values: seq<Option<Value>>, count: nat): Document
    requires count <= |values| == |OPTION_KEYS|
  {
    if count == 0 then []
    else FieldsOf(values, count - 1) + OptionField(OPTION_KEYS[count - 1], values[count - 1])
  }

  /** How a client writes the settings it wants. */
  function EncodeOptions(o: FindOptions): Document {
    FieldsOf(OptionValues(o), |OPTION_KEYS|)
  }

  lemma {:induction false} LookupInSum(a: Document, b: Document, name: string)
    ensures Lookup(a + b, name) == if Lookup(a, name).Some? then Lookup(a, name) else Lookup(b, name)
  {
    if |a| == 0 {
      assert a + b == b;
    } else {
      assert (a + b)[1..] == a[1..] + b;
      LookupInSum(a[1..], b, name);
    }
  }

  lemma {:induction false} FieldsOfLookup(values: seq<Option<Value>>, count: nat, i: nat)
    requires count <= |values| == |OPTION_KEYS| && i < |OPTION_KEYS|
    ensures Lookup(FieldsOf(values, count), OPTION_KEYS[i]) == if i < count then values[i] else None
  {
    if count > 0 {
      FieldsOfLookup(values, count - 1, i);
      LookupInSum(
        FieldsOf(values, count - 1), OptionField(OPTION_KEYS[count - 1], values[count - 1]), OPTION_KEYS[i]);
      if i != count - 1 {
        KeysDiffer(i, count - 1);
      }
    }
  }

  lemma {:induction false} KeysDiffer(i: nat, j: nat)
    requires i < |OPTION_KEYS| && j < |OPTION_KEYS| && i != j
    ensures OPTION_KEYS[i] != OPTION_KEYS[j]
  {
    var lengths := [14, 10, 5, 4, 4, 10];
    assert |OPTION_KEYS[i]| == lengths[i] && |OPTION_KEYS[j]| == lengths[j];
    assert OPTION_KEYS[3][1] != OPTION_KEYS[4][1] && OPTION_KEYS[1][0] != OPTION_KEYS[5][0];
  }

  /** The flag is on for 1 only, so any two other numbers mean the same. */
  predicate SameFlag(a: Option<Value>, b: Option<Value>) {
    a == b || (a.Some? && b.Some? && a.value.Int32? && b.value.Int32? && a.value.n != 1 && b.value.n != 1)
  }

  /** Settings survive encoding, and a document stands for them exactly when it gives each
      option the encoded value: other fields, their order and repetitions do not matter, and
      a mistyped option is never read as anything. */
  lemma {:induction false} OptionsRoundTrip(options: Document, o: FindOptions)
    ensures ParseOptions(EncodeOptions(o)) == Success(o)
    ensures ParseOptions(options) == Success(o) <==>
            && SameFlag(Lookup(options, OPTION_KEYS[0]), Lookup(EncodeOptions(o), OPTION_KEYS[0]))
            && forall i :: 1 <= i < |OPTION_KEYS| ==>
                 Lookup(options, OPTION_KEYS[i]) == Lookup(EncodeOptions(o), OPTION_KEYS[i])
  {
    forall i: nat | i < |OPTION_KEYS|
      ensures Lookup(EncodeOptions(o), OPTION_KEYS[i]) == OptionValues(o)[i]
    {
      FieldsOfLookup(OptionValues(o), |OPTION_KEYS|, i);
    }
    ParsedExactly(EncodeOptions(o), o);
    ParsedExactly(options, o);
  }

  lemma {:induction false} SettingsExactly(
      options: Document, name: string, b: Option<bool>, n: Option<int>, d: Option<Document>)
    ensures OptionalBool(options, name) == Success(b) <==> SameFlag(Lookup(options, name), FlagValue(b))
    ensures OptionalInt(options, name) == Success(n) <==> Lookup(options, name) == IntValue(n)
    ensures OptionalDocument(options, name) == Success(d) <==> Lookup(options, name) == DocValue(d)
  {
  }

  lemma {:induction false} ParsedExactly(options: Document, o: FindOptions)
    ensures ParseOptions(options) == Success(o) <==>
            && SameFlag(Lookup(options, OPTION_KEYS[0]), OptionValues(o)[0])
            && forall i :: 1 <= i < |OPTION_KEYS| ==> Lookup(options, OPTION_KEYS[i]) == OptionValues(o)[i]
  {
    ParsedSettings(options, o);
    SettingsExactly(options, OPTION_KEYS[0], o.allowDiskUse, None, None);
    SettingsExactly(options, OPTION_KEYS[1], None, o.batchSize, None);
    SettingsExactly(options, OPTION_KEYS[2], None, o.limit, None);
    SettingsExactly(options, OPTION_KEYS[3], None, o.skip, None);
    SettingsExactly(options, OPTION_KEYS[4], None, None, o.sort);
    SettingsExactly(options, OPTION_KEYS[5], None, None, o.projection);
    var v := OptionValues(o);
    assert (forall i :: 1 <= i < |OPTION_KEYS| ==> Lookup(options, OPTION_KEYS[i]) == v[i]) <==>
           (&& Lookup(options, OPTION_KEYS[1]) == v[1] && Lookup(options, OPTION_KEYS[2]) == v[2]
            && Lookup(options, OPTION_KEYS[3]) == v[3] && Lookup(options, OPTION_KEYS[4]) == v[4]
            && Lookup(options, OPTION_KEYS[5]) == v[5]);
  }

  lemma {:induction false} ParsedSettings(options: Document, o: FindOptions)
    ensures ParseOptions(options) == Success(o) <==>
            && OptionalBool(options, OPTION_KEYS[0]) == Success(o.allowDiskUse)
            && OptionalInt(options, OPTION_KEYS[1]) == Success(o.batchSize)
            && OptionalInt(options, OPTION_KEYS[2]) == Success(o.limit)
            && OptionalInt(options, OPTION_KEYS[3]) == Success(o.skip)
            && OptionalDocument(options, OPTION_KEYS[4]) == Success(o.sort)
            && OptionalDocument(options, OPTION_KEYS[5]) == Success(o.projection)
  {
  }

  function DatabaseAnswer(listing: seq<Document>, name: string, listAll: bool): Result<seq<Document>, Reason> {
    if listAll then Success(listing)
    else
      var entry :- FirstNamed(listing, name);
      Success(if entry.Some? then [entry.value] else [ErrorEntry("Database not found")])
  }

  function CollectionAnswer(listing: seq<Document>, name: string, listAll: bool): Result<seq<Document>, Reason> {
    if listAll then ProjectAll(listing)
    else
      var entry :- FirstNamed(listing, name);
      if entry.None? then Success([ErrorEntry("Collection not found")])
      else
        var shown :- Projected(entry.value);
        Success([shown])
  }

  function IndexAnswer(listing: seq<Document>, name: string): Result<seq<Document>, Reason> {
    if name == "" then Success(listing)
    else
      var entry :- FirstNamed(listing, name);
      Success(if entry.Some? then [entry.value] else [])
  }

  /** The entries a read answers with. */
  function ReadEntries(driver: Driver, cmd: Command, fault: bool, store: Store): Result<seq<Document>, Reason>
    requires IsRead(cmd)
  {
    match cmd
    case ReadDB(name, listAll) =>
      if fault then Failure(DriverError)
      else DatabaseAnswer(ListDatabases(driver, store), name, listAll)
    case ReadCollection(ns, listAll) =>
      if fault then Failure(DriverError)
      else CollectionAnswer(ListCollections(driver, store, ns.db), ns.coll, listAll)
    case ReadDocument(ns, filter, options) =>
      var opts :- ParseOptions(options);
      if fault then Failure(DriverError)
      else Success(driver.find(CollectionAt(store, ns).docs, filter, opts))
    case ReadIndex(ns, indexName) =>
      if fault then Failure(DriverError)
      else IndexAnswer(ListIndexes(store, ns), indexName)
  }

  function ReadKey(cmd: Command): string {
    match cmd
    case ReadDB(_, _) => "databases"
    case ReadCollection(_, _) => "collections"
    case ReadDocument(_, _, _) => "documents"
    case _ => "indexes"
  }

  // ---------------------------------------------------------------- the operations

  /** A read hands back a shared pointer, so a null result is representable here. */
  type Pointer = Option<Document>

  /** The write throws or takes effect exactly as the command says. */
  ghost predicate Carried(
      driver: Driver, cmd: Command, fault: bool, before: Store, after: Store, r: Result<(), Reason>)
  {
    var w := Write(driver, cmd, fault, before);
    && (r.Success? <==> w.Success?)
    && (r.Failure? ==> r.error == w.error && after == before)
    && (w.Success? ==> after == w.value)
  }

  class MongoDBInterface {
    const driver: Driver
    var store: Store

    constructor (driver: Driver, store: Store)
      ensures this.driver == driver && this.store == store
    {
      this.driver := driver;
      this.store := store;
    }

    /** A driver call that changes the store: it throws without effect or takes effect. */
    method Call(result: Result<Store, Reason>, fault: bool) returns (r: Result<(), Reason>)
      modifies this
      ensures r == if fault then Failure(DriverError)
                   else if result.Success? then Success(()) else Failure(result.error)
      ensures store == if !fault && result.Success? then result.value else old(store)
    {
      if fault {
        return Failure(DriverError);
      }
      match result {
        case Failure(e) =>
          r := Failure(e);
        case Success(s) =>
          store := s;
          r := Success(());
      }
    }

    method CreateDB(name: string, fault: bool) returns (r: Result<(), Reason>)
      modifies this
      ensures Carried(driver, Command.CreateDB(name), fault, old(store), store, r)
      ensures var ns := Namespace(name, "DummyCollection");
              && (r.Success? <==> !fault && ns !in old(store))
              && store == if r.Success? then old(store)[ns := NEW_COLLECTION] else old(store)
    {
      r := Call(Create(store, Namespace(name, "DummyCollection")), fault);
    }

    method CreateCollection(ns: Namespace, fault: bool) returns (r: Result<(), Reason>)
      modifies this
      ensures Carried(driver, Command.CreateCollection(ns), fault, old(store), store, r)
      ensures r.Success? <==> !fault && ns !in old(store)
      ensures store == if r.Success? then old(store)[ns := NEW_COLLECTION] else old(store)
    {
      r := Call(Create(store, ns), fault);
    }

    method CreateDocument(ns: Namespace, doc: Document, fault: bool) returns (r: Result<(), Reason>)
      modifies this
      ensures Carried(driver, Command.CreateDocument(ns, doc), fault, old(store), store, r)
      ensures r.Success? <==> !fault
      ensures r.Failure? ==> store == old(store)
      ensures r.Success? ==>
                && ns in store && SameOutside(old(store), store, {ns})
                && store[ns].docs == CollectionAt(old(store), ns).docs + [doc]
                && store[ns].indexes == CollectionAt(old(store), ns).indexes
    {
      r := Call(Success(Insert(store, ns, doc)), fault);
    }

    method CreateIndex(ns: Namespace, keys: Document, options: Document, fault: bool)
      returns (r: Result<(), Reason>)
      modifies this
      ensures Carried(driver, Command.CreateIndex(ns, keys, options), fault, old(store), store, r)
      ensures keys == [] ==> r.Success?
      ensures keys == [] || r.Failure? ==> store == old(store)
      ensures keys != [] ==>
                var index := driver.makeIndex(keys, options);
                && (r.Success? <==>
                      !fault && IndexNamed(CollectionAt(old(store), ns).indexes, index.name) in {None, Some(index)})
                && (r.Success? ==>
                      && ns in store && SameOutside(old(store), store, {ns})
                      && store[ns].docs == CollectionAt(old(store), ns).docs
                      && IndexNamed(store[ns].indexes, index.name) == Some(index)
                      && (forall x :: x in store[ns].indexes <==>
                                      x in CollectionAt(old(store), ns).indexes || x == index))
    {
      r := Success(());
      if keys != [] {
        ghost var indexes := CollectionAt(store, ns).indexes;
        var index := driver.makeIndex(keys, options);
        r := Call(MongoStore.CreateIndex(store, ns, index), fault);
        IndexAdded(indexes, index);
      }
    }

    method UpdateCollection(db: string, oldName: string, newName: string, fault: bool)
      returns (r: Result<(), Reason>)
      modifies this
      ensures Carried(driver, Command.UpdateCollection(db, oldName, newName), fault, old(store), store, r)
      ensures r.Failure? ==> store == old(store)
      ensures var source, target := Namespace(db, oldName), Namespace(db, newName);
              && (r.Success? <==> !fault && source in old(store) && target !in old(store))
              && (r.Success? ==>
                    && source !in store && target in store && store[target] == old(store)[source]
                    && SameOutside(old(store), store, {source, target}))
    {
      r := Call(Rename(store, Namespace(db, oldName), Namespace(db, newName)), fault);
    }

    method UpdateDocument(ns: Namespace, many: bool, filter: Document, update: Document, fault: bool)
      returns (r: Result<(), Reason>)
      modifies this
      ensures Carried(driver, Command.UpdateDocument(ns, many, filter, update), fault, old(store), store, r)
      ensures r.Success? <==> update == [] || !fault
      ensures update == [] || r.Failure? || ns !in old(store) ==> store == old(store)
      ensures update != [] && r.Success? && ns in old(store) ==>
                && ns in store && SameOutside(old(store), store, {ns})
                && store[ns].indexes == old(store)[ns].indexes
                && Rewritten(driver, old(store)[ns].docs, store[ns].docs, many, filter, update)
    {
      r := Success(());
      if update != [] {
        if ns in store {
          UpdateChanges(driver, store, ns, many, filter, update);
        }
        if many {
          r := Call(Success(Update(driver, store, ns, true, filter, update)), fault);
        } else {
          r := Call(Success(Update(driver, store, ns, false, filter, update)), fault);
        }
      }
    }

    method DeleteDB(db: string, fault: bool) returns (r: Result<(), Reason>)
      modifies this
      ensures Carried(driver, Command.DeleteDB(db), fault, old(store), store, r)
      ensures r.Success? <==> !fault
      ensures r.Failure? ==> store == old(store)
      ensures r.Success? ==> forall ns: Namespace :: if ns.db == db then ns !in store else SameAt(old(store), store, ns)
    {
      r := Call(Success(DropDatabase(store, db)), fault);
    }

    method DeleteCollection(ns: Namespace, fault: bool) returns (r: Result<(), Reason>)
      modifies this
      ensures Carried(driver, Command.DeleteCollection(ns), fault, old(store), store, r)
      ensures r.Success? <==> !fault
      ensures r.Failure? ==> store == old(store)
      ensures r.Success? ==> ns !in store && SameOutside(old(store), store, {ns})
    {
      r := Call(Success(DropCollection(store, ns)), fault);
    }

    method DeleteDocument(ns: Namespace, many: bool, filter: Document, fault: bool) returns (r: Result<(), Reason>)
      modifies this
      ensures Carried(driver, Command.DeleteDocument(ns, many, filter), fault, old(store), store, r)
      ensures r.Success? <==> filter == [] || !fault
      ensures filter == [] || r.Failure? || ns !in old(store) ==> store == old(store)
      ensures filter != [] && r.Success? && ns in old(store) ==>
                && ns in store && SameOutside(old(store), store, {ns})
                && store[ns].indexes == old(store)[ns].indexes
                && Purged(driver, old(store)[ns].docs, store[ns].docs, many, filter)
    {
      r := Success(());
      if filter != [] {
        if ns in store {
          DeleteChanges(driver, store, ns, many, filter);
        }
        if many {
          r := Call(Success(Delete(driver, store, ns, true, filter)), fault);
        } else {
          r := Call(Success(Delete(driver, store, ns, false, filter)), fault);
        }
      }
    }

    method DeleteIndex(ns: Namespace, indexName: string, fault: bool) returns (r: Result<(), Reason>)
      modifies this
      ensures Carried(driver, Command.DeleteIndex(ns, indexName), fault, old(store), store, r)
      ensures r.Success? <==>
              && !fault && ns in old(store) && indexName != ID_INDEX.name
              && IndexPosition(old(store)[ns].indexes, indexName) < |old(store)[ns].indexes|
      ensures r.Failure? ==> store == old(store)
      ensures r.Success? ==>
                var before := old(store)[ns].indexes;
                var k := IndexPosition(before, indexName);
                && ns in store && SameOutside(old(store), store, {ns})
                && store[ns].docs == old(store)[ns].docs
                && store[ns].indexes == before[..k] + before[k + 1..]
    {
      NamedAtPosition(CollectionAt(store, ns).indexes, indexName);
      WithoutCutsFirst(CollectionAt(store, ns).indexes, indexName);
      r := Call(DropIndex(store, ns, indexName), fault);
    }

    /** What a read must return: never null, and what the command reads. */
    ghost predicate Answers(cmd: Command, fault: bool, r: Result<Pointer, Reason>)
      requires IsRead(cmd)
      reads this
    {
      var entries := ReadEntries(driver, cmd, fault, store);
      && (r.Success? <==> entries.Success?)
      && (r.Failure? ==> r.error == entries.error)
      && (r.Success? ==> r.value == Some(Wrapped(ReadKey(cmd), entries.value)))
    }

    method ReadDB(name: string, listAll: bool, fault: bool) returns (r: Result<Pointer, Reason>)
      ensures Answers(Command.ReadDB(name, listAll), fault, r)
    {
      if fault {
        return Failure(DriverError);
      }
      var entries :- ShowDatabases(ListDatabases(driver, store), name, listAll);
      r := Success(Some(Wrapped("databases", entries)));
    }

    method ReadCollection(ns: Namespace, listAll: bool, fault: bool) returns (r: Result<Pointer, Reason>)
      ensures Answers(Command.ReadCollection(ns, listAll), fault, r)
    {
      if fault {
        return Failure(DriverError);
      }
      var entries :- ShowCollections(ListCollections(driver, store, ns.db), ns.coll, listAll);
      r := Success(Some(Wrapped("collections", entries)));
    }

    method ReadDocument(ns: Namespace, filter: Document, options: Document, fault: bool)
      returns (r: Result<Pointer, Reason>)
      ensures Answers(Command.ReadDocument(ns, filter, options), fault, r)
    {
      var opts :- ParseOptions(options);
      if fault {
        return Failure(DriverError);
      }
      var cursor := driver.find(CollectionAt(store, ns).docs, filter, opts);
      var builder: seq<Document> := [];
      for i := 0 to |cursor|
        invariant builder == cursor[..i]
      {
        builder := builder + [cursor[i]];
      }
      assert builder == cursor;
      r := Success(Some(Wrapped("documents", builder)));
    }

    method ReadIndex(ns: Namespace, indexName: string, fault: bool) returns (r: Result<Pointer, Reason>)
      ensures Answers(Command.ReadIndex(ns, indexName), fault, r)
    {
      if fault {
        return Failure(DriverError);
      }
      var entries :- ShowIndexes(ListIndexes(store, ns), indexName);
      r := Success(Some(Wrapped("indexes", entries)));
    }
  }

  // ---------------------------------------------------------------- the search loops

  /** The loops of `readDB` over any cursor. */
  method ShowDatabases(listing: seq<Document>, name: string, listAll: bool)
    returns (r: Result<seq<Document>, Reason>)
    ensures r == DatabaseAnswer(listing, name, listAll)
  {
    var builder: seq<Document> := [];
    if listAll {
      for i := 0 to |listing|
        invariant builder == listing[..i]
      {
        builder := builder + [listing[i]];
      }
      assert builder == listing;
    } else {
      var found := false;
      var i := 0;
      while i < |listing| && !found
        invariant 0 <= i <= |listing|
        invariant !found ==> builder == [] && FirstNamed(listing, name) == FirstNamed(listing[i..], name)
        invariant found ==> i < |listing| && FirstNamed(listing, name) == Success(Some(listing[i]))
        invariant found ==> builder == [listing[i]]
        decreases |listing| - i, !found
      {
        var entryName :- GetString(listing[i], "name");
        if name == entryName {
          builder := [listing[i]];
          found := true;
        } else {
          i := i + 1;
        }
      }
      if !found {
        builder := [ErrorEntry("Database not found")];
      }
    }
    r := Success(builder);
  }

  /** The loops of `readCollection` over any cursor. */
  method ShowCollections(listing: seq<Document>, name: string, listAll: bool)
    returns (r: Result<seq<Document>, Reason>)
    ensures r == CollectionAnswer(listing, name, listAll)
  {
    var builder: seq<Document> := [];
    if listAll {
      for i := 0 to |listing|
        invariant ProjectAll(listing[..i]) == Success(builder)
      {
        assert listing[..i + 1][..i] == listing[..i];
        var shown := Projected(listing[i]);
        if shown.Failure? {
          BadEntryFailsAll(listing, i);
          return Failure(shown.error);
        }
        builder := builder + [shown.value];
      }
      assert listing[..|listing|] == listing;
    } else {
      var found := false;
      var i := 0;
      while i < |listing| && !found
        invariant 0 <= i <= |listing|
        invariant !found ==> builder == [] && FirstNamed(listing, name) == FirstNamed(listing[i..], name)
        invariant found ==> i < |listing| && FirstNamed(listing, name) == Success(Some(listing[i]))
        invariant found ==> Projected(listing[i]).Success? && builder == [Projected(listing[i]).value]
        decreases |listing| - i, !found
      {
        var entryName :- GetString(listing[i], "name");
        if name == entryName {
          var shown :- Projected(listing[i]);
          builder := [shown];
          found := true;
        } else {
          i := i + 1;
        }
      }
      if !found {
        builder := [ErrorEntry("Collection not found")];
      }
    }
    r := Success(builder);
  }

  /** The loops of `readIndex` over any cursor. */
  method ShowIndexes(listing: seq<Document>, name: string) returns (r: Result<seq<Document>, Reason>)
    ensures r == IndexAnswer(listing, name)
  {
    var builder: seq<Document> := [];
    if name == "" {
      for i := 0 to |listing|
        invariant builder == listing[..i]
      {
        builder := builder + [listing[i]];
      }
      assert builder == listing;
    } else {
      var found := false;
      var i := 0;
      while i < |listing| && !found
        invariant 0 <= i <= |listing|
        invariant !found ==> builder == [] && FirstNamed(listing, name) == FirstNamed(listing[i..], name)
        invariant found ==> i < |listing| && FirstNamed(listing, name) == Success(Some(listing[i]))
        invariant found ==> builder == [listing[i]]
        decreases |listing| - i, !found
      {
        var entryName :- GetString(listing[i], "name");
        if name == entryName {
          builder := [listing[i]];
          found := true;
        } else {
          i := i + 1;
        }
      }
    }
    r := Success(builder);
  }

  /** One entry without a name or type makes the whole listing fail, with the first such
      entry's error. */
  lemma {:induction false} BadEntryFailsAll(listing: seq<Document>, i: nat)
    requires i < |listing| && ProjectAll(listing[..i]).Success? && Projected(listing[i]).Failure?
    ensures ProjectAll(listing).Failure? && ProjectAll(listing).error == Projected(listing[i]).error
  {
    var n := |listing| - 1;
    if i < n {
      assert listing[..n][..i] == listing[..i];
      BadEntryFailsAll(listing[..n], i);
    }
  }
}
