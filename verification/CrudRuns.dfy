/** Whole sequences of requests: replies agree with effects, documents are conserved, and
    reads tell the truth about the store. */
module CrudRuns {
  import opened Outcomes
  import opened Bson
  import opened MongoStore
  import opened MongoInterface
  import opened CrudHandler
  import Sets

  /** A request together with whether its driver call throws. */
  datatype Arrival = Arrival(req: Request, fault: bool)

  function StoreAfter(driver: Driver, arrivals: seq<Arrival>, store: Store): Store {
    if |arrivals| == 0 then store
    else
      var a := arrivals[|arrivals| - 1];
      Answer(driver, a.req, a.fault, StoreAfter(driver, arrivals[..|arrivals| - 1], store)).1
  }

  function Replies(driver: Driver, arrivals: seq<Arrival>, store: Store): (replies: seq<Reply>)
    ensures |replies| == |arrivals|
  {
    if |arrivals| == 0 then []
    else
      var front, a := arrivals[..|arrivals| - 1], arrivals[|arrivals| - 1];
      Replies(driver, front, store) + [Answer(driver, a.req, a.fault, StoreAfter(driver, front, store)).0]
  }

  predicate Acknowledged(reply: Reply) {
    reply.body.Some? && (reply.body.value.Ok? || reply.body.value.OkData?)
  }

  // ---------------------------------------------------------------- replies agree with effects

  /** The effect a request claims when it is acknowledged, faults and errors aside. */
  function Claimed(driver: Driver, req: Request, store: Store): Store {
    match CommandOf(driver, req)
    case Failure(_) => store
    case Success(cmd) =>
      if !CallsDriver(cmd) then store
      else
        match Effect(driver, cmd, store)
        case Success(after) => after
        case Failure(_) => store
  }

  /** A client's reconstruction of the store from the requests it sent and the replies it got. */
  function Replay(driver: Driver, arrivals: seq<Arrival>, replies: seq<Reply>, store: Store): Store
    requires |replies| == |arrivals|
  {
    if |arrivals| == 0 then store
    else
      var n := |arrivals| - 1;
      var before := Replay(driver, arrivals[..n], replies[..n], store);
      if Acknowledged(replies[n]) then Claimed(driver, arrivals[n].req, before) else before
  }

  lemma {:induction false} OneReplyAgrees(driver: Driver, a: Arrival, store: Store)
    ensures var (reply, after) := Answer(driver, a.req, a.fault, store);
            after == if Acknowledged(reply) then Claimed(driver, a.req, store) else store
  {
  }

  /** The final store is the initial one after the claimed effects of exactly the
      acknowledged requests, in order. */
  lemma {:induction false} AcknowledgedReplay(driver: Driver, arrivals: seq<Arrival>, store: Store)
    ensures StoreAfter(driver, arrivals, store) ==
            Replay(driver, arrivals, Replies(driver, arrivals, store), store)
  {
    if |arrivals| > 0 {
      var n := |arrivals| - 1;
      var replies := Replies(driver, arrivals, store);
      AcknowledgedReplay(driver, arrivals[..n], store);
      assert replies[..n] == Replies(driver, arrivals[..n], store);
      OneReplyAgrees(driver, arrivals[n], StoreAfter(driver, arrivals[..n], store));
    }
  }

  /** An error, a rejection and a read leave the store alone. */
  lemma {:induction false} UnacknowledgedAndReadsKeepStore(driver: Driver, a: Arrival, store: Store)
    ensures var (reply, after) := Answer(driver, a.req, a.fault, store);
            && (!Acknowledged(reply) ==> after == store)
            && (QueryParam(a.req, "operation") == "read" ==> after == store)
            && (a.req.verb != "POST" ==> reply == Reply(StatusBadRequest, true, None) && after == store)
            && (a.req.verb == "POST" ==> reply.status == StatusOk && reply.body.Some? && reply.body.value != NoResult)
            && reply.jsonHeader
  {
  }

  /** An acknowledged document create has appended its document, whatever was there, and
      changed nothing else. */
  lemma {:induction false} AcknowledgedCreateIsStored(
      driver: Driver, a: Arrival, store: Store, ns: Namespace, doc: Document)
    requires CommandOf(driver, a.req) == Success(CreateDocument(ns, doc))
    ensures var (reply, after) := Answer(driver, a.req, a.fault, store);
            Acknowledged(reply) ==>
              && ns in after && SameOutside(store, after, {ns})
              && after[ns].docs == CollectionAt(store, ns).docs + [doc]
              && after[ns].indexes == CollectionAt(store, ns).indexes
  {
  }

  // ---------------------------------------------------------------- documents are conserved

  ghost function DocCount(store: Store): nat
    decreases |store|
  {
    if store == map[] then 0
    else
      Sets.HasElement(store.Keys);
      var ns :| ns in store.Keys;
      SmallerWithout(store, ns);
      |store[ns].docs| + DocCount(store - {ns})
  }

  lemma {:induction false} SmallerWithout(store: Store, ns: Namespace)
    requires ns in store
    ensures |store - {ns}| < |store|
  {
    assert (store - {ns}).Keys == store.Keys - {ns};
    assert |store.Keys - {ns}| == |store.Keys| - 1;
  }

  /** The count does not depend on the order in which collections are visited. */
  lemma {:induction false} DocCountWithout(store: Store, ns: Namespace)
    requires ns in store
    ensures DocCount(store) == |store[ns].docs| + DocCount(store - {ns})
    decreases |store|
  {
    Sets.HasElement(store.Keys);
    var first :| first in store.Keys && DocCount(store) == |store[first].docs| + DocCount(store - {first});
    if first != ns {
      SmallerWithout(store, first);
      SmallerWithout(store, ns);
      DocCountWithout(store - {first}, ns);
      DocCountWithout(store - {ns}, first);
      assert store - {first} - {ns} == store - {ns} - {first};
    }
  }

  lemma {:induction false} DocCountPut(store: Store, ns: Namespace, c: Collection)
    ensures DocCount(store[ns := c]) == |c.docs| + DocCount(store - {ns})
    ensures DocCount(store) == (if ns in store then |store[ns].docs| else 0) + DocCount(store - {ns})
  {
    DocCountWithout(store[ns := c], ns);
    assert store[ns := c] - {ns} == store - {ns};
    if ns in store {
      DocCountWithout(store, ns);
    } else {
      assert store - {ns} == store;
    }
  }

  function OnlyDatabase(store: Store, db: string): Store {
    map ns | ns in store && ns.db == db :: store[ns]
  }

  lemma {:induction false} SplitInside(store: Store, db: string, ns: Namespace)
    requires ns in store && ns.db == db
    ensures DropDatabase(store, db) == DropDatabase(store - {ns}, db)
    ensures OnlyDatabase(store, db) - {ns} == OnlyDatabase(store - {ns}, db)
    ensures ns in OnlyDatabase(store, db) && OnlyDatabase(store, db)[ns] == store[ns]
  {
  }

  lemma {:induction false} SplitOutside(store: Store, db: string, ns: Namespace)
    requires ns in store && ns.db != db
    ensures OnlyDatabase(store, db) == OnlyDatabase(store - {ns}, db)
    ensures DropDatabase(store, db) - {ns} == DropDatabase(store - {ns}, db)
    ensures ns in DropDatabase(store, db) && DropDatabase(store, db)[ns] == store[ns]
  {
  }

  lemma {:induction false} DocCountSplit(store: Store, db: string)
    ensures DocCount(store) == DocCount(DropDatabase(store, db)) + DocCount(OnlyDatabase(store, db))
    decreases |store|
  {
    if store == map[] {
      assert DropDatabase(store, db) == map[] && OnlyDatabase(store, db) == map[];
    } else {
      Sets.HasElement(store.Keys);
      var ns :| ns in store.Keys;
      DocCountWithout(store, ns);
      SmallerWithout(store, ns);
      DocCountSplit(store - {ns}, db);
      if ns.db == db {
        SplitInside(store, db, ns);
        DocCountWithout(OnlyDatabase(store, db), ns);
      } else {
        SplitOutside(store, db, ns);
        DocCountWithout(DropDatabase(store, db), ns);
      }
    }
  }

  function Matching(driver: Driver, docs: seq<Document>, filter: Document): nat {
    if |docs| == 0 then 0
    else (if driver.matches(filter, docs[0]) then 1 else 0) + Matching(driver, docs[1..], filter)
  }

  lemma {:induction false} UpdateKeepsLength(
      driver: Driver, docs: seq<Document>, many: bool, filter: Document, update: Document)
    ensures |UpdateDocs(driver, docs, many, filter, update)| == |docs|
  {
    if |docs| > 0 {
      UpdateKeepsLength(driver, docs[1..], many, filter, update);
    }
  }

  lemma {:induction false} DeleteRemovesMatching(driver: Driver, docs: seq<Document>, many: bool, filter: Document)
    ensures |docs| - |DeleteDocs(driver, docs, many, filter)| == Removals(driver, docs, many, filter)
  {
    if |docs| > 0 {
      DeleteRemovesMatching(driver, docs[1..], many, filter);
    }
  }

  /** delete_many removes every match, delete_one at most one. */
  function Removals(driver: Driver, docs: seq<Document>, many: bool, filter: Document): nat {
    var m := Matching(driver, docs, filter);
    if many || m == 0 then m else 1
  }

  /** How many documents an acknowledged command adds, and how many it removes. */
  function Added(cmd: Command): nat {
    if cmd.CreateDocument? then 1 else 0
  }

  ghost function Removed(driver: Driver, cmd: Command, store: Store): nat {
    match cmd
    case DeleteDB(db) => DocCount(OnlyDatabase(store, db))
    case DeleteCollection(ns) => if ns in store then |store[ns].docs| else 0
    case DeleteDocument(ns, many, filter) =>
      if ns in store && filter != [] then Removals(driver, store[ns].docs, many, filter) else 0
    case _ => 0
  }

  lemma {:induction false} RenameKeepsCount(store: Store, source: Namespace, target: Namespace)
    requires Rename(store, source, target).Success?
    ensures DocCount(Rename(store, source, target).value) == DocCount(store)
  {
    var rest := store - {source};
    DocCountPut(rest, target, store[source]);
    assert rest - {target} == rest;
    DocCountWithout(store, source);
  }

  lemma {:induction false} EffectOnCount(driver: Driver, cmd: Command, store: Store)
    requires Effect(driver, cmd, store).Success?
    requires CallsDriver(cmd)
    ensures DocCount(Effect(driver, cmd, store).value) + Removed(driver, cmd, store) == DocCount(store) + Added(cmd)
  {
    match cmd
    case CreateDB(name) =>
      DocCountPut(store, Namespace(name, "DummyCollection"), NEW_COLLECTION);
    case CreateCollection(ns) =>
      DocCountPut(store, ns, NEW_COLLECTION);
    case CreateDocument(ns, doc) =>
      var c := CollectionAt(store, ns);
      DocCountPut(store, ns, c.(docs := c.docs + [doc]));
    case CreateIndex(ns, keys, options) =>
      var c := CollectionAt(store, ns);
      var index := driver.makeIndex(keys, options);
      DocCountPut(store, ns, c);
      DocCountPut(store, ns, c.(indexes := c.indexes + [index]));
    case UpdateCollection(db, oldName, newName) =>
      RenameKeepsCount(store, Namespace(db, oldName), Namespace(db, newName));
    case UpdateDocument(ns, many, filter, update) =>
      if ns in store {
        UpdateKeepsLength(driver, store[ns].docs, many, filter, update);
        DocCountPut(store, ns, Update(driver, store, ns, many, filter, update)[ns]);
      }
    case DeleteDB(db) =>
      DocCountSplit(store, db);
    case DeleteCollection(ns) =>
      DocCountPut(store, ns, NEW_COLLECTION);
    case DeleteDocument(ns, many, filter) =>
      if ns in store {
        DeleteRemovesMatching(driver, store[ns].docs, many, filter);
        DocCountPut(store, ns, Delete(driver, store, ns, many, filter)[ns]);
      }
    case DeleteIndex(ns, name) =>
      if ns in store {
        DocCountPut(store, ns, store[ns].(indexes := WithoutIndex(store[ns].indexes, name)));
      }
    case _ =>
  }

  /** Documents added minus documents removed by the acknowledged requests of a run. */
  ghost function NetGrowth(driver: Driver, arrivals: seq<Arrival>, store: Store): int {
    if |arrivals| == 0 then 0
    else
      var front, a := arrivals[..|arrivals| - 1], arrivals[|arrivals| - 1];
      var before := StoreAfter(driver, front, store);
      NetGrowth(driver, front, store) +
      match CommandOf(driver, a.req)
      case Success(cmd) =>
        if Acknowledged(Answer(driver, a.req, a.fault, before).0) then Added(cmd) - Removed(driver, cmd, before) else 0
      case Failure(_) => 0
  }

  lemma {:induction false} OneAnswerCounts(driver: Driver, a: Arrival, store: Store)
    ensures var (reply, after) := Answer(driver, a.req, a.fault, store);
            DocCount(after) == DocCount(store) +
                               match CommandOf(driver, a.req)
                               case Success(cmd) =>
                                 if Acknowledged(reply) then Added(cmd) - Removed(driver, cmd, store) else 0
                               case Failure(_) => 0
  {
    var command := CommandOf(driver, a.req);
    if command.Success? {
      var cmd := command.value;
      if CallsDriver(cmd) && Effect(driver, cmd, store).Success? {
        EffectOnCount(driver, cmd, store);
      }
    }
  }

  /** Over every run: the documents stored are those stored before, plus one for each
      acknowledged document create, minus those the acknowledged deletes removed. */
  lemma {:induction false} DocumentsConserved(driver: Driver, arrivals: seq<Arrival>, store: Store)
    ensures DocCount(StoreAfter(driver, arrivals, store)) == DocCount(store) + NetGrowth(driver, arrivals, store)
  {
    if |arrivals| > 0 {
      var front := arrivals[..|arrivals| - 1];
      DocumentsConserved(driver, front, store);
      OneAnswerCounts(driver, arrivals[|arrivals| - 1], StoreAfter(driver, front, store));
    }
  }

  /** The handler at work: over any sequence of requests and faults its replies and its
      store are those the requests mean, what a client reconstructs from the replies is what
      is stored, and the documents add up. */
  method ServeAll(handler: CrudHandler, arrivals: seq<Arrival>) returns (replies: seq<Reply>)
    modifies handler.mongo
    ensures var driver, start, store := handler.mongo.driver, old(handler.mongo.store), handler.mongo.store;
            && replies == Replies(driver, arrivals, start) && store == StoreAfter(driver, arrivals, start)
            && store == Replay(driver, arrivals, replies, start)
            && DocCount(store) == DocCount(start) + NetGrowth(driver, arrivals, start)
  {
    ghost var driver, start := handler.mongo.driver, handler.mongo.store;
    replies := [];
    for n := 0 to |arrivals|
      invariant replies == Replies(driver, arrivals[..n], start)
      invariant handler.mongo.store == StoreAfter(driver, arrivals[..n], start)
    {
      assert arrivals[..n + 1][..n] == arrivals[..n];
      var reply := handler.Handle(arrivals[n].req, arrivals[n].fault);
      replies := replies + [reply];
    }
    assert arrivals[..|arrivals|] == arrivals;
    AcknowledgedReplay(driver, arrivals, start);
    DocumentsConserved(driver, arrivals, start);
  }

  // ---------------------------------------------------------------- what an effect touches

  /** The collections a command may change. */
  predicate Targets(cmd: Command, ns: Namespace) {
    match cmd
    case CreateDB(name) => ns == Namespace(name, "DummyCollection")
    case CreateCollection(target) => ns == target
    case CreateDocument(target, _) => ns == target
    case CreateIndex(target, _, _) => ns == target
    case UpdateCollection(db, oldName, newName) => ns == Namespace(db, oldName) || ns == Namespace(db, newName)
    case UpdateDocument(target, _, _, _) => ns == target
    case DeleteDB(db) => ns.db == db
    case DeleteCollection(target) => ns == target
    case DeleteDocument(target, _, _) => ns == target
    case DeleteIndex(target, _) => ns == target
    case _ => false
  }

  /** No acknowledged request of the run targets the collection. */
  ghost predicate Untargeted(driver: Driver, arrivals: seq<Arrival>, store: Store, ns: Namespace) {
    forall i :: 0 <= i < |arrivals| && Acknowledged(Replies(driver, arrivals, store)[i]) ==>
                  var command := CommandOf(driver, arrivals[i].req);
                  command.Success? ==> !Targets(command.value, ns)
  }

  /** A run leaves alone every collection that no acknowledged request targets. */
  lemma {:induction false} UntargetedUntouched(driver: Driver, arrivals: seq<Arrival>, store: Store, ns: Namespace)
    requires Untargeted(driver, arrivals, store, ns)
    ensures SameAt(store, StoreAfter(driver, arrivals, store), ns)
  {
    if |arrivals| > 0 {
      var n := |arrivals| - 1;
      var front := arrivals[..n];
      var replies := Replies(driver, arrivals, store);
      assert replies[..n] == Replies(driver, front, store);
      forall i | 0 <= i < n && Acknowledged(Replies(driver, front, store)[i])
        ensures var command := CommandOf(driver, front[i].req);
                command.Success? ==> !Targets(command.value, ns)
      {
        assert replies[i] == Replies(driver, front, store)[i];
      }
      UntargetedUntouched(driver, front, store, ns);
      assert replies[n] == Answer(driver, arrivals[n].req, arrivals[n].fault, StoreAfter(driver, front, store)).0;
      OneAnswerFrame(driver, arrivals[n], StoreAfter(driver, front, store), ns);
    }
  }

  lemma {:induction false} OneAnswerFrame(driver: Driver, a: Arrival, store: Store, ns: Namespace)
    requires var command := CommandOf(driver, a.req);
             Acknowledged(Answer(driver, a.req, a.fault, store).0) && command.Success? ==> !Targets(command.value, ns)
    ensures SameAt(store, Answer(driver, a.req, a.fault, store).1, ns)
  {
    var command := CommandOf(driver, a.req);
    if command.Success? && CallsDriver(command.value) {
      if Effect(driver, command.value, store).Success? && !Targets(command.value, ns) {
        EffectFrame(driver, command.value, store, ns);
      }
    }
  }

  lemma {:induction false} EffectFrame(driver: Driver, cmd: Command, store: Store, ns: Namespace)
    requires Effect(driver, cmd, store).Success? && !Targets(cmd, ns)
    ensures SameAt(store, Effect(driver, cmd, store).value, ns)
  {
  }

  // ---------------------------------------------------------------- reads

  /** The entries of the listing with that name. */
  function Filtered(listing: seq<Document>, name: string): seq<Document> {
    if |listing| == 0 then []
    else (if GetString(listing[0], "name") == Success(name) then [listing[0]] else []) + Filtered(listing[1..], name)
  }

  /** The entries before k have names, none of them the one looked for. */
  ghost predicate PassedOver(listing: seq<Document>, name: string, k: nat)
    requires k <= |listing|
  {
    forall i :: 0 <= i < k ==> GetString(listing[i], "name").Success? && GetString(listing[i], "name") != Success(name)
  }

  lemma {:induction false} FirstNamedStops(listing: seq<Document>, name: string, k: nat)
    requires k <= |listing| && PassedOver(listing, name, k)
    ensures k == |listing| ==> FirstNamed(listing, name) == Success(None)
    ensures k < |listing| && GetString(listing[k], "name") == Success(name) ==>
              FirstNamed(listing, name) == Success(Some(listing[k]))
    ensures k < |listing| && GetString(listing[k], "name").Failure? ==> FirstNamed(listing, name) == Failure(BadField)
  {
    if k > 0 {
      assert GetString(listing[0], "name") != Success(name);
      forall i | 0 <= i < k - 1
        ensures GetString(listing[1..][i], "name").Success? && GetString(listing[1..][i], "name") != Success(name)
      {
        assert listing[1..][i] == listing[i + 1];
      }
      FirstNamedStops(listing[1..], name, k - 1);
    }
  }

  /** A named lookup over any cursor stops at the first entry of that name, whatever comes
      after it; it throws when it meets an entry without a name before; only when it passes
      all entries over does it report that there is none. */
  lemma {:induction false} LookupStopsAtFirst(listing: seq<Document>, name: string, k: nat)
    requires k <= |listing| && PassedOver(listing, name, k) && name != ""
    ensures k == |listing| ==>
              && DatabaseAnswer(listing, name, false) == Success([[Field("error", Str("Database not found"))]])
              && CollectionAnswer(listing, name, false) == Success([[Field("error", Str("Collection not found"))]])
              && IndexAnswer(listing, name) == Success([])
    ensures k < |listing| && GetString(listing[k], "name") == Success(name) ==>
              && DatabaseAnswer(listing, name, false) == Success([listing[k]])
              && IndexAnswer(listing, name) == Success([listing[k]])
              && CollectionAnswer(listing, name, false) ==
                 match Lookup(listing[k], "type")
                 case Some(kind) => Success([[Field("name", Str(name)), Field("type", kind)]])
                 case None => Failure(BadField)
    ensures k < |listing| && GetString(listing[k], "name").Failure? ==>
              && DatabaseAnswer(listing, name, false) == Failure(BadField)
              && CollectionAnswer(listing, name, false) == Failure(BadField)
              && IndexAnswer(listing, name) == Failure(BadField)
  {
    FirstNamedStops(listing, name, k);
  }

  ghost predicate UniquelyNamed(listing: seq<Document>) {
    && (forall i :: 0 <= i < |listing| ==> GetString(listing[i], "name").Success?)
    && (forall i, j :: 0 <= i < j < |listing| ==>
                         GetString(listing[i], "name") != GetString(listing[j], "name"))
  }

  lemma {:induction false} FilteredNone(listing: seq<Document>, name: string)
    requires forall i :: 0 <= i < |listing| ==> GetString(listing[i], "name") != Success(name)
    ensures Filtered(listing, name) == []
  {
    if |listing| > 0 {
      FilteredNone(listing[1..], name);
    }
  }

  lemma {:induction false} FirstNamedIsFilter(listing: seq<Document>, name: string)
    requires UniquelyNamed(listing)
    ensures FirstNamed(listing, name) ==
            Success(if Filtered(listing, name) == [] then None else Some(Filtered(listing, name)[0]))
    ensures |Filtered(listing, name)| <= 1
  {
    if |listing| > 0 {
      FirstNamedIsFilter(listing[1..], name);
      if GetString(listing[0], "name") == Success(name) {
        FilteredNone(listing[1..], name);
      }
    }
  }

  lemma {:induction false} FilteredSingle(listing: seq<Document>, i: nat, name: string)
    requires UniquelyNamed(listing) && i < |listing| && GetString(listing[i], "name") == Success(name)
    ensures Filtered(listing, name) == [listing[i]]
  {
    if i == 0 {
      FilteredNone(listing[1..], name);
    } else {
      FilteredSingle(listing[1..], i - 1, name);
    }
  }

  /** On a listing that names everything once, a named lookup answers with the list-all
      answer filtered by that name; when nothing matches, a database read answers with one
      error entry and an index read with none. */
  lemma {:induction false} NamedLookupIsFilter(listing: seq<Document>, name: string)
    requires UniquelyNamed(listing)
    ensures DatabaseAnswer(listing, name, true) == Success(listing)
    ensures DatabaseAnswer(listing, name, false) ==
            Success(if Filtered(listing, name) == [] then [ErrorEntry("Database not found")]
                    else Filtered(listing, name))
    ensures IndexAnswer(listing, "") == Success(listing)
    ensures name != "" ==> IndexAnswer(listing, name) == Success(Filtered(listing, name))
  {
    FirstNamedIsFilter(listing, name);
    var f := Filtered(listing, name);
    if f != [] {
      assert f == [f[0]];
    }
  }

  /** Listing all collections works exactly when every entry can be shown, and then shows
      each in its place. */
  lemma {:induction false} ProjectAllPointwise(listing: seq<Document>)
    ensures var all := ProjectAll(listing);
            && (all.Success? <==> forall i :: 0 <= i < |listing| ==> Projected(listing[i]).Success?)
            && (all.Success? ==>
                  && |all.value| == |listing|
                  && forall i :: 0 <= i < |listing| ==> Projected(listing[i]) == Success(all.value[i]))
  {
    if |listing| > 0 {
      var front, last := listing[..|listing| - 1], listing[|listing| - 1];
      ProjectAllPointwise(front);
      assert listing == front + [last];
      if ProjectAll(front).Failure? {
        var i :| 0 <= i < |front| && Projected(front[i]).Failure?;
        assert listing[i] == front[i];
      }
    }
  }

  /** List-all over any cursor: databases and indexes are answered whole; collections by
      their names and types in order, and with an error as soon as one entry lacks either. */
  lemma {:induction false} ListAllExactly(listing: seq<Document>, name: string)
    ensures DatabaseAnswer(listing, name, true) == Success(listing) && IndexAnswer(listing, "") == Success(listing)
    ensures var all := CollectionAnswer(listing, name, true);
            && (all.Success? <==> forall i :: 0 <= i < |listing| ==>
                                    Lookup(listing[i], "name").Some? && Lookup(listing[i], "type").Some?)
            && (all.Failure? ==> all.error == BadField)
            && (all.Success? ==>
                  && |all.value| == |listing|
                  && forall i :: 0 <= i < |listing| ==>
                       all.value[i] == [Field("name", Lookup(listing[i], "name").value),
                                        Field("type", Lookup(listing[i], "type").value)])
  {
    ProjectAllPointwise(listing);
    ProjectAllError(listing);
    forall i | 0 <= i < |listing|
      ensures Projected(listing[i]).Success? <==>
              Lookup(listing[i], "name").Some? && Lookup(listing[i], "type").Some?
    {
    }
  }

  lemma {:induction false} ProjectAllError(listing: seq<Document>)
    ensures ProjectAll(listing).Failure? ==> ProjectAll(listing).error == BadField
  {
    if |listing| > 0 {
      ProjectAllError(listing[..|listing| - 1]);
    }
  }

  lemma {:induction false} ProjectedKeepsName(entry: Document)
    requires Projected(entry).Success?
    ensures GetString(Projected(entry).value, "name") == GetString(entry, "name")
  {
  }

  lemma {:induction false} ProjectAllKeepsNames(listing: seq<Document>, all: seq<Document>)
    requires UniquelyNamed(listing) && ProjectAll(listing) == Success(all)
    ensures |all| == |listing| && UniquelyNamed(all)
    ensures forall i :: 0 <= i < |listing| ==> GetString(all[i], "name") == GetString(listing[i], "name")
    ensures forall i :: 0 <= i < |listing| ==> Projected(listing[i]) == Success(all[i])
  {
    ProjectAllPointwise(listing);
    forall i | 0 <= i < |listing| ensures GetString(all[i], "name") == GetString(listing[i], "name") {
      ProjectedKeepsName(listing[i]);
    }
  }

  /** When listing all collections succeeds, a named collection lookup answers with that
      list filtered by the name, or with one error entry. */
  lemma {:induction false} NamedCollectionIsFilter(listing: seq<Document>, name: string, all: seq<Document>)
    requires UniquelyNamed(listing) && CollectionAnswer(listing, name, true) == Success(all)
    ensures CollectionAnswer(listing, name, false) ==
            Success(if Filtered(all, name) == [] then [ErrorEntry("Collection not found")] else Filtered(all, name))
  {
    ProjectAllKeepsNames(listing, all);
    FirstNamedIsFilter(listing, name);
    if i: nat :| i < |listing| && GetString(listing[i], "name") == Success(name) {
      assert Filtered(all, name) == [all[i]] by {
        FilteredSingle(all, i, name);
      }
      assert FirstNamed(listing, name) == Success(Some(listing[i])) by {
        FilteredSingle(listing, i, name);
      }
    } else {
      FilteredNone(listing, name);
      FilteredNone(all, name);
    }
  }

  /** Listing all collections throws although the named lookup succeeds exactly when some
      entry has no type and the entry of that name, if there is one, has. */
  lemma {:induction false} ListAllThrowsAlone(listing: seq<Document>, name: string)
    requires UniquelyNamed(listing)
    ensures CollectionAnswer(listing, name, true).Failure? && CollectionAnswer(listing, name, false).Success? <==>
            && (exists i :: 0 <= i < |listing| && Lookup(listing[i], "type").None?)
            && forall i :: 0 <= i < |listing| && GetString(listing[i], "name") == Success(name) ==>
                             Lookup(listing[i], "type").Some?
  {
    ProjectAllPointwise(listing);
    forall i | 0 <= i < |listing| ensures Projected(listing[i]).Success? <==> Lookup(listing[i], "type").Some? {
      assert GetString(listing[i], "name").Success?;
    }
    FirstNamedIsFilter(listing, name);
    if i: nat :| i < |listing| && GetString(listing[i], "name") == Success(name) {
      FilteredSingle(listing, i, name);
    } else {
      FilteredNone(listing, name);
    }
  }

  lemma {:induction false} OrderIsDistinct(names: seq<string>, s: set<string>)
    requires multiset(names) == multiset(s)
    ensures forall i, j :: 0 <= i < j < |names| ==> names[i] != names[j]
    ensures forall n :: n in names <==> n in s
  {
    forall i, j | 0 <= i < j < |names| ensures names[i] != names[j] {
      var a, b := names[..j], names[j..];
      assert names == a + b;
      assert multiset(names) == multiset(a) + multiset(b);
      assert a[i] == names[i] && b[0] == names[j];
      assert names[i] in multiset(a) && names[j] in multiset(b);
      assert multiset(s)[names[j]] <= 1;
    }
    forall n ensures n in names <==> n in s {
      assert n in multiset(names) <==> n in multiset(s);
    }
  }

  /** A named database read finds the database exactly when the store has one. */
  lemma {:induction false} DatabaseReadTellsTruth(driver: Driver, name: string, store: Store)
    requires Faithful(driver)
    ensures ReadEntries(driver, ReadDB(name, false), false, store) ==
            Success(if exists ns :: ns in store && ns.db == name then [DbEntry(driver, name)]
                    else [ErrorEntry("Database not found")])
  {
    var names := driver.order(DbNames(store));
    var listing := ListDatabases(driver, store);
    OrderIsDistinct(names, DbNames(store));
    NamedLookupIsFilter(listing, name);
    if ns :| ns in store && ns.db == name {
      assert name in names;
      var i: nat :| i < |names| && names[i] == name;
      FilteredSingle(listing, i, name);
    } else {
      assert name !in names;
      FilteredNone(listing, name);
    }
  }

  lemma {:induction false} EntryShown(driver: Driver, name: string)
    ensures Projected(CollEntry(driver, name)) ==
            Success([Field("name", Str(name)), Field("type", Str("collection"))])
  {
    var entry := CollEntry(driver, name);
    assert entry[1..][0] == Field("type", Str("collection"));
    assert Lookup(entry[1..], "type") == Some(Str("collection"));
  }

  /** A named collection read finds the collection exactly when the store has it. */
  lemma {:induction false} CollectionReadTellsTruth(driver: Driver, ns: Namespace, store: Store)
    requires Faithful(driver)
    ensures ReadEntries(driver, ReadCollection(ns, false), false, store) ==
            Success(if ns in store then [[Field("name", Str(ns.coll)), Field("type", Str("collection"))]]
                    else [ErrorEntry("Collection not found")])
  {
    var names := driver.order(CollNames(store, ns.db));
    var listing := ListCollections(driver, store, ns.db);
    OrderIsDistinct(names, CollNames(store, ns.db));
    FirstNamedIsFilter(listing, ns.coll);
    if ns in store {
      assert ns.coll in names;
      var i: nat :| i < |names| && names[i] == ns.coll;
      FilteredSingle(listing, i, ns.coll);
      EntryShown(driver, ns.coll);
    } else {
      assert ns.coll !in names by {
        assert ns.coll in CollNames(store, ns.db) ==> Namespace(ns.db, ns.coll) in store;
      }
      FilteredNone(listing, ns.coll);
    }
  }
}
