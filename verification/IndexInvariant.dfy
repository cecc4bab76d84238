/** Over every run of requests each collection keeps its `_id_` index and uniquely named
    indexes, so a named index read is exact. */
module IndexInvariant {
  import opened Outcomes
  import opened Bson
  import opened MongoStore
  import opened MongoInterface
  import opened CrudHandler
  import opened CrudRequests
  import opened CrudReplies
  import opened CrudRuns

  ghost predicate UniqueNames(indexes: seq<Index>) {
    forall i, j :: 0 <= i < j < |indexes| ==> indexes[i].name != indexes[j].name
  }

  ghost predicate GoodIndexes(indexes: seq<Index>) {
    UniqueNames(indexes) && ID_INDEX in indexes
  }

  ghost predicate GoodStore(store: Store) {
    forall ns :: ns in store ==> GoodIndexes(store[ns].indexes)
  }

  lemma {:induction false} NamedExactly(indexes: seq<Index>, name: string)
    ensures IndexNamed(indexes, name).None? <==> forall i :: 0 <= i < |indexes| ==> indexes[i].name != name
  {
    if |indexes| > 0 {
      NamedExactly(indexes[1..], name);
    }
  }

  lemma {:induction false} NewIndexKeepsGood(indexes: seq<Index>, index: Index)
    requires GoodIndexes(indexes) && IndexNamed(indexes, index.name).None?
    ensures GoodIndexes(indexes + [index])
  {
    NamedExactly(indexes, index.name);
  }

  lemma {:induction false} WithoutMembers(indexes: seq<Index>, name: string)
    ensures forall x :: x in WithoutIndex(indexes, name) ==> x in indexes
    ensures forall x :: x in indexes && x.name != name ==> x in WithoutIndex(indexes, name)
  {
    if |indexes| > 0 {
      WithoutMembers(indexes[1..], name);
      assert indexes == [indexes[0]] + indexes[1..];
    }
  }

  lemma {:induction false} WithoutKeepsUnique(indexes: seq<Index>, name: string)
    requires UniqueNames(indexes)
    ensures UniqueNames(WithoutIndex(indexes, name))
  {
    if |indexes| > 0 && indexes[0].name != name {
      WithoutKeepsUnique(indexes[1..], name);
      WithoutMembers(indexes[1..], name);
      var tail := WithoutIndex(indexes[1..], name);
      forall x | x in tail ensures x.name != indexes[0].name {
        assert x in indexes[1..];
      }
      var all := [indexes[0]] + tail;
      forall i, j | 0 <= i < j < |all| ensures all[i].name != all[j].name {
        assert all[j] == tail[j - 1];
        assert all[j] in tail;
      }
    }
  }

  lemma {:induction false} EffectKeepsGood(driver: Driver, cmd: Command, store: Store)
    requires GoodStore(store) && Effect(driver, cmd, store).Success?
    ensures GoodStore(Effect(driver, cmd, store).value)
  {
    match cmd
    case CreateIndex(ns, keys, options) =>
      var c := CollectionAt(store, ns);
      var index := driver.makeIndex(keys, options);
      assert GoodIndexes(c.indexes);
      if IndexNamed(c.indexes, index.name).None? {
        NewIndexKeepsGood(c.indexes, index);
      }
    case DeleteIndex(ns, name) =>
      assert GoodIndexes(store[ns].indexes);
      WithoutMembers(store[ns].indexes, name);
      WithoutKeepsUnique(store[ns].indexes, name);
      assert GoodIndexes(WithoutIndex(store[ns].indexes, name));
    case _ =>
  }

  /** Every run of requests, acknowledged or not. */
  lemma {:induction false} IndexesStayGood(driver: Driver, arrivals: seq<Arrival>, store: Store)
    requires GoodStore(store)
    ensures GoodStore(StoreAfter(driver, arrivals, store))
  {
    if |arrivals| > 0 {
      var front, a := arrivals[..|arrivals| - 1], arrivals[|arrivals| - 1];
      IndexesStayGood(driver, front, store);
      var before := StoreAfter(driver, front, store);
      var command := CommandOf(driver, a.req);
      if command.Success? && Effect(driver, command.value, before).Success? {
        EffectKeepsGood(driver, command.value, before);
      }
    }
  }

  /** After any run, a named index read is answered with the only index of that name, or
      with nothing when the collection has none. */
  lemma {:induction false} IndexReadTellsTruth(
      driver: Driver, arrivals: seq<Arrival>, start: Store, req: Request, ns: Namespace, name: string)
    requires GoodStore(start) && name != "" && Posts(driver, req, ReadIndex(ns, name))
    ensures var store := StoreAfter(driver, arrivals, start);
            var indexes := if ns in store then store[ns].indexes else [];
            var reply := Answer(driver, req, false, store).0;
            && (forall k :: 0 <= k < |indexes| && indexes[k].name == name ==>
                  reply == Reply(StatusOk, true, Some(Data("indexes", [IndexItem(indexes[k])]))))
            && ((forall k :: 0 <= k < |indexes| ==> indexes[k].name != name) ==>
                  reply == Reply(StatusOk, true, Some(Data("indexes", []))))
  {
    IndexesStayGood(driver, arrivals, start);
    var store := StoreAfter(driver, arrivals, start);
    var indexes := if ns in store then store[ns].indexes else [];
    assert UniqueNames(indexes);
    IndexReadReply(driver, req, ns, name, false, store);
    forall k | 0 <= k < |indexes| && indexes[k].name == name ensures k == IndexPosition(indexes, name) {
    }
  }
}
