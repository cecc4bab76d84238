/** What an acknowledged request has done, and which requests undo each other. */
module CrudUndo {
  import opened Outcomes
  import opened Bson
  import opened MongoStore
  import opened MongoInterface
  import opened CrudHandler
  import opened CrudRuns
  import opened IndexInvariant

  ghost predicate Asks(driver: Driver, a: Arrival, cmd: Command) {
    a.req.verb == "POST" && CommandOf(driver, a.req) == Success(cmd)
  }

  lemma {:induction false} AnswerOfWrite(driver: Driver, a: Arrival, cmd: Command, store: Store)
    requires Asks(driver, a, cmd) && !IsRead(cmd)
    ensures var (reply, after) := Answer(driver, a.req, a.fault, store);
            var w := Write(driver, cmd, a.fault, store);
            && (Acknowledged(reply) <==> w.Success?)
            && after == if w.Success? then w.value else store
  {
  }

  // ---------------------------------------------------------------- updates and deletes

  /** An acknowledged update has rewritten exactly the matching documents, all or the first,
      and nothing else; with an empty update it has done nothing. */
  lemma {:induction false} AcknowledgedUpdate(driver: Driver, a: Arrival, store: Store,
                                              ns: Namespace, many: bool, filter: Document, update: Document)
    requires Asks(driver, a, UpdateDocument(ns, many, filter, update))
    requires Acknowledged(Answer(driver, a.req, a.fault, store).0)
    ensures var after := Answer(driver, a.req, a.fault, store).1;
            if update == [] || ns !in store then after == store
            else
              && ns in after && SameOutside(store, after, {ns}) && after[ns].indexes == store[ns].indexes
              && Rewritten(driver, store[ns].docs, after[ns].docs, many, filter, update)
  {
    AnswerOfWrite(driver, a, UpdateDocument(ns, many, filter, update), store);
    if ns in store {
      UpdateChanges(driver, store, ns, many, filter, update);
    }
  }

  /** An acknowledged delete has removed exactly the matching documents, all or the first,
      and nothing else; with an empty filter it has done nothing. */
  lemma {:induction false} AcknowledgedDelete(
      driver: Driver, a: Arrival, store: Store, ns: Namespace, many: bool, filter: Document)
    requires Asks(driver, a, DeleteDocument(ns, many, filter))
    requires Acknowledged(Answer(driver, a.req, a.fault, store).0)
    ensures var after := Answer(driver, a.req, a.fault, store).1;
            if filter == [] || ns !in store then after == store
            else
              && ns in after && SameOutside(store, after, {ns}) && after[ns].indexes == store[ns].indexes
              && Purged(driver, store[ns].docs, after[ns].docs, many, filter)
  {
    AnswerOfWrite(driver, a, DeleteDocument(ns, many, filter), store);
    if ns in store {
      DeleteChanges(driver, store, ns, many, filter);
    }
  }

  // ---------------------------------------------------------------- requests that undo each other

  lemma {:induction false} RenameBack(store: Store, middle: Store, source: Namespace, target: Namespace)
    requires Rename(store, source, target).Success?
    requires var renamed := Rename(store, source, target).value;
             SameAt(renamed, middle, source) && SameAt(renamed, middle, target)
    ensures var r := Rename(middle, target, source);
            && r.Success? && SameOutside(middle, r.value, {source, target})
            && SameAt(store, r.value, source) && SameAt(store, r.value, target)
            && (middle == Rename(store, source, target).value ==> r.value == store)
  {
    var renamed := Rename(store, source, target).value;
    assert (renamed - {target})[source := store[source]] == store;
  }

  /** An acknowledged rename can be renamed back after any run of requests that leaves both
      names alone: the reverse request is acknowledged unless its driver call throws, the old
      name has its collection again and the new name is free. Directly afterwards it restores
      the whole store. */
  lemma {:induction false} RenameUndone(
      driver: Driver, there: Arrival, between: seq<Arrival>, back: Arrival, store: Store,
      db: string, oldName: string, newName: string)
    requires Asks(driver, there, UpdateCollection(db, oldName, newName))
    requires Asks(driver, back, UpdateCollection(db, newName, oldName))
    requires var (reply, renamed) := Answer(driver, there.req, there.fault, store);
             && Acknowledged(reply)
             && Untargeted(driver, between, renamed, Namespace(db, oldName))
             && Untargeted(driver, between, renamed, Namespace(db, newName))
    ensures var source, target := Namespace(db, oldName), Namespace(db, newName);
            var middle := StoreAfter(driver, between, Answer(driver, there.req, there.fault, store).1);
            var (reply, after) := Answer(driver, back.req, back.fault, middle);
            && (Acknowledged(reply) <==> !back.fault)
            && (Acknowledged(reply) ==>
                  && SameOutside(middle, after, {source, target})
                  && SameAt(store, after, source) && SameAt(store, after, target)
                  && (between == [] ==> after == store))
  {
    var source, target := Namespace(db, oldName), Namespace(db, newName);
    var renamed := Answer(driver, there.req, there.fault, store).1;
    AnswerOfWrite(driver, there, UpdateCollection(db, oldName, newName), store);
    UntargetedUntouched(driver, between, renamed, source);
    UntargetedUntouched(driver, between, renamed, target);
    var middle := StoreAfter(driver, between, renamed);
    RenameBack(store, middle, source, target);
    AnswerOfWrite(driver, back, UpdateCollection(db, newName, oldName), middle);
  }

  /** No request of the run asks for a change of the collection, acknowledged or not. */
  ghost predicate NotAskedFor(driver: Driver, arrivals: seq<Arrival>, ns: Namespace) {
    forall i :: 0 <= i < |arrivals| ==>
                  var command := CommandOf(driver, arrivals[i].req);
                  command.Success? ==> !Targets(command.value, ns)
  }

  lemma {:induction false} RenameBeside(
      store: Store, source: Namespace, target: Namespace, ns: Namespace, c: Collection)
    requires ns !in store && ns != source && ns != target
    ensures var alone, beside := Rename(store, source, target), Rename(store[ns := c], source, target);
            && (alone.Success? <==> beside.Success?)
            && (alone.Success? ==> ns !in alone.value && beside.value == alone.value[ns := c])
  {
    assert store[ns := c] - {source} == (store - {source})[ns := c];
  }

  lemma {:induction false} DropsBeside(store: Store, db: string, target: Namespace, ns: Namespace, c: Collection)
    requires ns !in store
    ensures ns.db != db ==> DropDatabase(store[ns := c], db) == DropDatabase(store, db)[ns := c]
    ensures ns != target ==> DropCollection(store[ns := c], target) == DropCollection(store, target)[ns := c]
  {
  }

  /** A command works the same beside one more collection that it does not target. */
  lemma {:induction false} EffectBeside(driver: Driver, cmd: Command, store: Store, ns: Namespace, c: Collection)
    requires ns !in store && !Targets(cmd, ns)
    ensures var alone, beside := Effect(driver, cmd, store), Effect(driver, cmd, store[ns := c]);
            && (alone.Success? <==> beside.Success?)
            && (alone.Success? ==> ns !in alone.value && beside.value == alone.value[ns := c])
  {
    match cmd
    case UpdateCollection(db, oldName, newName) =>
      var source, target := Namespace(db, oldName), Namespace(db, newName);
      RenameBeside(store, source, target, ns, c);
    case DeleteDB(db) =>
      DropsBeside(store, db, ns, ns, c);
    case DeleteCollection(target) =>
      DropsBeside(store, "", target, ns, c);
    case _ =>
  }

  lemma {:induction false} RunBeside(
      driver: Driver, arrivals: seq<Arrival>, store: Store, ns: Namespace, c: Collection)
    requires ns !in store && NotAskedFor(driver, arrivals, ns)
    ensures ns !in StoreAfter(driver, arrivals, store)
    ensures StoreAfter(driver, arrivals, store[ns := c]) == StoreAfter(driver, arrivals, store)[ns := c]
  {
    if |arrivals| > 0 {
      var front, a := arrivals[..|arrivals| - 1], arrivals[|arrivals| - 1];
      RunBeside(driver, front, store, ns, c);
      OneAnswerBeside(driver, a, StoreAfter(driver, front, store), ns, c);
    }
  }

  lemma {:induction false} OneAnswerBeside(driver: Driver, a: Arrival, store: Store, ns: Namespace, c: Collection)
    requires ns !in store
    requires var command := CommandOf(driver, a.req); command.Success? ==> !Targets(command.value, ns)
    ensures var alone := Answer(driver, a.req, a.fault, store).1;
            ns !in alone && Answer(driver, a.req, a.fault, store[ns := c]).1 == alone[ns := c]
  {
    var command := CommandOf(driver, a.req);
    if command.Success? && a.req.verb == "POST" && !IsRead(command.value) {
      AnswerOfWrite(driver, a, command.value, store);
      AnswerOfWrite(driver, a, command.value, store[ns := c]);
      EffectBeside(driver, command.value, store, ns, c);
    }
  }

  lemma {:induction false} AnswerOfCollectionCreate(driver: Driver, a: Arrival, store: Store, ns: Namespace)
    requires Asks(driver, a, CreateCollection(ns)) && Acknowledged(Answer(driver, a.req, a.fault, store).0)
    ensures ns !in store && Answer(driver, a.req, a.fault, store).1 == store[ns := NEW_COLLECTION]
  {
    AnswerOfWrite(driver, a, CreateCollection(ns), store);
  }

  lemma {:induction false} AnswerOfCollectionDrop(driver: Driver, a: Arrival, store: Store, ns: Namespace)
    requires Asks(driver, a, DeleteCollection(ns))
    ensures var (reply, after) := Answer(driver, a.req, a.fault, store);
            (Acknowledged(reply) <==> !a.fault) && (!a.fault ==> after == store - {ns})
  {
    AnswerOfWrite(driver, a, DeleteCollection(ns), store);
  }

  lemma {:induction false} DroppedAfterRun(
      driver: Driver, between: seq<Arrival>, store: Store, ns: Namespace)
    requires ns !in store
    ensures var middle := StoreAfter(driver, between, store[ns := NEW_COLLECTION]);
            && SameOutside(middle, middle - {ns}, {ns}) && SameAt(store, middle - {ns}, ns)
            && (NotAskedFor(driver, between, ns) ==> middle - {ns} == StoreAfter(driver, between, store))
  {
    if NotAskedFor(driver, between, ns) {
      RunBeside(driver, between, store, ns, NEW_COLLECTION);
      var alone := StoreAfter(driver, between, store);
      assert alone[ns := NEW_COLLECTION] - {ns} == alone;
    }
  }

  /** An acknowledged collection create is undone by deleting the collection, whatever
      happened to it in between; everything else is as the run left it. When the run in
      between never asked for the collection, it has left what it leaves without the create
      and the delete around it. */
  lemma {:induction false} CreateUndone(
      driver: Driver, create: Arrival, between: seq<Arrival>, drop: Arrival, store: Store, ns: Namespace)
    requires Asks(driver, create, CreateCollection(ns)) && Asks(driver, drop, DeleteCollection(ns))
    requires Acknowledged(Answer(driver, create.req, create.fault, store).0)
    ensures var middle := StoreAfter(driver, between, Answer(driver, create.req, create.fault, store).1);
            var (reply, after) := Answer(driver, drop.req, drop.fault, middle);
            && (Acknowledged(reply) <==> !drop.fault)
            && (Acknowledged(reply) ==>
                  && SameOutside(middle, after, {ns}) && SameAt(store, after, ns)
                  && (NotAskedFor(driver, between, ns) ==> after == StoreAfter(driver, between, store)))
  {
    var created := Answer(driver, create.req, create.fault, store).1;
    AnswerOfCollectionCreate(driver, create, store, ns);
    var middle := StoreAfter(driver, between, created);
    AnswerOfCollectionDrop(driver, drop, middle, ns);
    DroppedAfterRun(driver, between, store, ns);
  }

  lemma {:induction false} WithoutNamedDiffers(indexes: seq<Index>, name: string)
    requires IndexNamed(indexes, name).Some?
    ensures WithoutIndex(indexes, name) != indexes
  {
    NamedAtPosition(indexes, name);
    WithoutCutsFirst(indexes, name);
  }

  lemma {:induction false} IndexRestoredExactly(store: Store, ns: Namespace, index: Index)
    requires GoodStore(store) && MongoStore.CreateIndex(store, ns, index).Success?
    ensures var middle := MongoStore.CreateIndex(store, ns, index).value;
            var dropped := DropIndex(middle, ns, index.name);
            && (dropped.Success? <==> index.name != ID_INDEX.name)
            && ((if dropped.Success? then dropped.value else middle) == store <==>
                ns in store && (IndexNamed(store[ns].indexes, index.name).None? || index.name == ID_INDEX.name))
  {
    var indexes := CollectionAt(store, ns).indexes;
    assert GoodIndexes(indexes);
    if IndexNamed(indexes, index.name).None? {
      WithoutAppended(indexes, index);
      NamedExactly(indexes, index.name);
    } else {
      WithoutNamedDiffers(indexes, index.name);
    }
    if ns in store {
      assert store[ns := store[ns]] == store;
    }
  }

  lemma {:induction false} AnswerOfIndexCreate(
      driver: Driver, a: Arrival, store: Store, ns: Namespace, keys: Document, options: Document)
    requires Asks(driver, a, Command.CreateIndex(ns, keys, options)) && keys != []
    requires Acknowledged(Answer(driver, a.req, a.fault, store).0)
    ensures MongoStore.CreateIndex(store, ns, driver.makeIndex(keys, options)) ==
            Success(Answer(driver, a.req, a.fault, store).1)
  {
    AnswerOfWrite(driver, a, Command.CreateIndex(ns, keys, options), store);
  }

  lemma {:induction false} AnswerOfIndexDrop(driver: Driver, a: Arrival, store: Store, ns: Namespace, name: string)
    requires Asks(driver, a, DeleteIndex(ns, name)) && !a.fault
    ensures var (reply, after) := Answer(driver, a.req, a.fault, store);
            var dropped := DropIndex(store, ns, name);
            && (Acknowledged(reply) <==> dropped.Success?)
            && after == if dropped.Success? then dropped.value else store
  {
    AnswerOfWrite(driver, a, DeleteIndex(ns, name), store);
  }

  /** An acknowledged index create followed by a delete of the same name: the delete is
      acknowledged unless it throws or names `_id_`, and the store is restored exactly when
      the collection was there and the create added an index, or the index was `_id_`. */
  lemma {:induction false} IndexCreateUndoneExactly(
      driver: Driver, create: Arrival, drop: Arrival, store: Store, ns: Namespace, keys: Document, options: Document)
    requires var name := driver.makeIndex(keys, options).name;
             && Asks(driver, create, Command.CreateIndex(ns, keys, options)) && keys != []
             && Asks(driver, drop, DeleteIndex(ns, name)) && !drop.fault
    requires Acknowledged(Answer(driver, create.req, create.fault, store).0)
    requires GoodStore(store)
    ensures var name := driver.makeIndex(keys, options).name;
            var middle := Answer(driver, create.req, create.fault, store).1;
            var (reply, after) := Answer(driver, drop.req, drop.fault, middle);
            && (Acknowledged(reply) <==> name != ID_INDEX.name)
            && (after == store <==>
                  ns in store && (IndexNamed(store[ns].indexes, name).None? || name == ID_INDEX.name))
  {
    var index := driver.makeIndex(keys, options);
    AnswerOfIndexCreate(driver, create, store, ns, keys, options);
    IndexRestoredExactly(store, ns, index);
    AnswerOfIndexDrop(driver, drop, MongoStore.CreateIndex(store, ns, index).value, ns, index.name);
  }
}
