/** crud_handler::handle: from an HTTP request to one operation and one reply, through two
    levels of exception handling. */
module CrudHandler {
  import opened Outcomes
  import opened Bson
  import opened MongoStore
  import opened MongoInterface

  datatype CrudOperation = CreateOp | ReadOp | UpdateOp | DeleteOp

  datatype MongoClass = DbClass | CollectionClass | DocumentClass | IndexClass

  datatype Request = Request(verb: string, params: map<string, string>, content: string)

  /** `result_doc`. */
  datatype ResultDoc = NoResult | Ok | OkData(data: Document) | Error(reason: Reason)

  datatype Status = StatusOk | StatusBadRequest

  /** `jsonHeader` says that the reply goes out as JSON, which `done("json")` sees to. */
  datatype Reply = Reply(status: Status, jsonHeader: bool, body: Option<ResultDoc>)

  function GetOperationType(s: string): Result<CrudOperation, Reason> {
    if s == "create" then Success(CreateOp)
    else if s == "read" then Success(ReadOp)
    else if s == "update" then Success(UpdateOp)
    else if s == "delete" then Success(DeleteOp)
    else Failure(InvalidOperation)
  }

  function GetMongoClass(s: string): Result<MongoClass, Reason> {
    if s == "db" then Success(DbClass)
    else if s == "collection" then Success(CollectionClass)
    else if s == "document" then Success(DocumentClass)
    else if s == "index" then Success(IndexClass)
    else Failure(InvalidClass)
  }

  /** A missing query parameter reads as the empty string. */
  function QueryParam(req: Request, name: string): string {
    if name in req.params then req.params[name] else ""
  }

  /** A body that is not JSON leaves the document empty. */
  function Body(driver: Driver, req: Request): Document {
    match driver.parse(req.content)
    case Some(d) => d
    case None => []
  }

  /** The document to insert: given directly, as an array, or as JSON text. */
  function JsonData(driver: Driver, doc: Document): Result<Document, Reason> {
    match Lookup(doc, "json_data")
    case None => Failure(BadField)
    case Some(Doc(d)) => Success(d)
    case Some(Arr(items)) => Success([Field("json_data", Arr(items))])
    case Some(Str(s)) =>
      (match driver.parse(s)
       case Some(d) => Success(d)
       case None => Failure(MalformedJson))
    case Some(_) => Failure(InvalidJsonData)
  }

  function GetNamespace(doc: Document): Result<Namespace, Reason> {
    var db :- GetString(doc, "dbname");
    var coll :- GetString(doc, "collectionname");
    Success(Namespace(db, coll))
  }

  // ---------------------------------------------------------------- the reference meaning

  /** Which command a request stands for, or why it stands for none. */
  function Decode(driver: Driver, op: CrudOperation, cls: MongoClass, doc: Document): Result<Command, Reason> {
    match (op, cls)
    case (CreateOp, DbClass) =>
      var name :- GetString(doc, "name");
      Success(CreateDB(name))
    case (CreateOp, CollectionClass) =>
      var ns :- GetNamespace(doc);
      var _ :- GetDocumentOrEmpty(doc, "collection_options");
      Success(CreateCollection(ns))
    case (CreateOp, DocumentClass) =>
      var data :- JsonData(driver, doc);
      var ns :- GetNamespace(doc);
      Success(CreateDocument(ns, data))
    case (CreateOp, IndexClass) =>
      var ns :- GetNamespace(doc);
      var keys :- GetDocument(doc, "keys");
      var options :- GetDocument(doc, "index_options");
      Success(Command.CreateIndex(ns, keys, options))
    case (ReadOp, DbClass) =>
      var name :- GetString(doc, "name");
      var listAll :- GetBool(doc, "list_all");
      Success(ReadDB(name, listAll))
    case (ReadOp, CollectionClass) =>
      var ns :- GetNamespace(doc);
      var listAll :- GetBool(doc, "list_all");
      Success(ReadCollection(ns, listAll))
    case (ReadOp, DocumentClass) =>
      var ns :- GetNamespace(doc);
      var filter :- GetDocumentOrEmpty(doc, "filter");
      var options :- GetDocumentOrEmpty(doc, "options");
      Success(ReadDocument(ns, filter, options))
    case (ReadOp, IndexClass) =>
      var ns :- GetNamespace(doc);
      var name :- GetString(doc, "indexname");
      Success(ReadIndex(ns, name))
    case (UpdateOp, CollectionClass) =>
      var db :- GetString(doc, "dbname");
      var oldName :- GetString(doc, "oldname");
      var newName :- GetString(doc, "newname");
      Success(UpdateCollection(db, oldName, newName))
    case (UpdateOp, DocumentClass) =>
      var ns :- GetNamespace(doc);
      var many :- GetBool(doc, "updmany");
      var filter :- GetDocument(doc, "filter");
      var update :- GetDocument(doc, "fields_toupd");
      Success(UpdateDocument(ns, many, filter, update))
    case (UpdateOp, _) => Failure(CannotUpdate)
    case (DeleteOp, DbClass) =>
      var db :- GetString(doc, "dbname");
      Success(DeleteDB(db))
    case (DeleteOp, CollectionClass) =>
      var ns :- GetNamespace(doc);
      Success(DeleteCollection(ns))
    case (DeleteOp, DocumentClass) =>
      var ns :- GetNamespace(doc);
      var many :- GetBool(doc, "delmany");
      var filter :- GetDocument(doc, "filter");
      Success(DeleteDocument(ns, many, filter))
    case (DeleteOp, IndexClass) =>
      var ns :- GetNamespace(doc);
      var name :- GetString(doc, "indexname");
      Success(DeleteIndex(ns, name))
  }

  /** The command of a POST request. */
  function CommandOf(driver: Driver, req: Request): Result<Command, Reason> {
    var op :- GetOperationType(QueryParam(req, "operation"));
    var cls :- GetMongoClass(QueryParam(req, "class"));
    Decode(driver, op, cls, Body(driver, req))
  }

  function Execute(driver: Driver, cmd: Command, fault: bool, store: Store): (ResultDoc, Store) {
    if IsRead(cmd) then
      match ReadEntries(driver, cmd, fault, store)
      case Success(entries) => (OkData(Wrapped(ReadKey(cmd), entries)), store)
      case Failure(e) => (Error(e), store)
    else
      match Write(driver, cmd, fault, store)
      case Success(after) => (Ok, after)
      case Failure(e) => (Error(e), store)
  }

  function Perform(driver: Driver, command: Result<Command, Reason>, fault: bool, store: Store): (ResultDoc, Store) {
    match command
    case Success(cmd) => Execute(driver, cmd, fault, store)
    case Failure(e) => (Error(e), store)
  }

  /** The meaning of a request: its reply and the store it leaves. */
  function Answer(driver: Driver, req: Request, fault: bool, store: Store): (Reply, Store) {
    if req.verb != "POST" then (Reply(StatusBadRequest, true, None), store)
    else
      var (doc, after) := Perform(driver, CommandOf(driver, req), fault, store);
      (Reply(StatusOk, true, Some(doc)), after)
  }

  // ---------------------------------------------------------------- the handler

  /** What one inner try block did: the result of the command the request decodes to, or
      the exception of a field access, with the store untouched. */
  ghost predicate Tried(driver: Driver, op: CrudOperation, cls: MongoClass, doc: Document, fault: bool,
                        before: Store, after: Store, r: Result<(), Reason>)
  {
    match Decode(driver, op, cls, doc)
    case Success(cmd) => !IsRead(cmd) && Carried(driver, cmd, fault, before, after, r)
    case Failure(e) => r == Failure(e) && after == before
  }

  class CrudHandler {
    const mongo: MongoDBInterface

    constructor (mongo: MongoDBInterface)
      ensures this.mongo == mongo
    {
      this.mongo := mongo;
    }

    method TryCreateDB(doc: Document, fault: bool) returns (r: Result<(), Reason>)
      modifies mongo
      ensures Tried(mongo.driver, CreateOp, DbClass, doc, fault, old(mongo.store), mongo.store, r)
    {
      var name :- GetString(doc, "name");
      r := mongo.CreateDB(name, fault);
    }

    method TryCreateCollection(doc: Document, fault: bool) returns (r: Result<(), Reason>)
      modifies mongo
      ensures Tried(mongo.driver, CreateOp, CollectionClass, doc, fault, old(mongo.store), mongo.store, r)
    {
      var db :- GetString(doc, "dbname");
      var coll :- GetString(doc, "collectionname");
      var options :- GetDocumentOrEmpty(doc, "collection_options");
      r := mongo.CreateCollection(Namespace(db, coll), fault);
    }

    method TryCreateDocument(doc: Document, data: Document, fault: bool) returns (r: Result<(), Reason>)
      requires JsonData(mongo.driver, doc) == Success(data)
      modifies mongo
      ensures Tried(mongo.driver, CreateOp, DocumentClass, doc, fault, old(mongo.store), mongo.store, r)
    {
      var db :- GetString(doc, "dbname");
      var coll :- GetString(doc, "collectionname");
      r := mongo.CreateDocument(Namespace(db, coll), data, fault);
    }

    method TryCreateIndex(doc: Document, fault: bool) returns (r: Result<(), Reason>)
      modifies mongo
      ensures Tried(mongo.driver, CreateOp, IndexClass, doc, fault, old(mongo.store), mongo.store, r)
    {
      var db :- GetString(doc, "dbname");
      var coll :- GetString(doc, "collectionname");
      var keys :- GetDocument(doc, "keys");
      var options :- GetDocument(doc, "index_options");
      r := mongo.CreateIndex(Namespace(db, coll), keys, options, fault);
    }

    method TryUpdateCollection(doc: Document, fault: bool) returns (r: Result<(), Reason>)
      modifies mongo
      ensures Tried(mongo.driver, UpdateOp, CollectionClass, doc, fault, old(mongo.store), mongo.store, r)
    {
      var db :- GetString(doc, "dbname");
      var oldName :- GetString(doc, "oldname");
      var newName :- GetString(doc, "newname");
      r := mongo.UpdateCollection(db, oldName, newName, fault);
    }

    method TryUpdateDocument(doc: Document, fault: bool) returns (r: Result<(), Reason>)
      modifies mongo
      ensures Tried(mongo.driver, UpdateOp, DocumentClass, doc, fault, old(mongo.store), mongo.store, r)
    {
      var db :- GetString(doc, "dbname");
      var coll :- GetString(doc, "collectionname");
      var many :- GetBool(doc, "updmany");
      var filter :- GetDocument(doc, "filter");
      var update :- GetDocument(doc, "fields_toupd");
      r := mongo.UpdateDocument(Namespace(db, coll), many, filter, update, fault);
    }

    method TryDeleteDB(doc: Document, fault: bool) returns (r: Result<(), Reason>)
      modifies mongo
      ensures Tried(mongo.driver, DeleteOp, DbClass, doc, fault, old(mongo.store), mongo.store, r)
    {
      var db :- GetString(doc, "dbname");
      r := mongo.DeleteDB(db, fault);
    }

    method TryDeleteCollection(doc: Document, fault: bool) returns (r: Result<(), Reason>)
      modifies mongo
      ensures Tried(mongo.driver, DeleteOp, CollectionClass, doc, fault, old(mongo.store), mongo.store, r)
    {
      var db :- GetString(doc, "dbname");
      var coll :- GetString(doc, "collectionname");
      r := mongo.DeleteCollection(Namespace(db, coll), fault);
    }

    method TryDeleteDocument(doc: Document, fault: bool) returns (r: Result<(), Reason>)
      modifies mongo
      ensures Tried(mongo.driver, DeleteOp, DocumentClass, doc, fault, old(mongo.store), mongo.store, r)
    {
      var db :- GetString(doc, "dbname");
      var coll :- GetString(doc, "collectionname");
      var many :- GetBool(doc, "delmany");
      var filter :- GetDocument(doc, "filter");
      r := mongo.DeleteDocument(Namespace(db, coll), many, filter, fault);
    }

    method TryDeleteIndex(doc: Document, fault: bool) returns (r: Result<(), Reason>)
      modifies mongo
      ensures Tried(mongo.driver, DeleteOp, IndexClass, doc, fault, old(mongo.store), mongo.store, r)
    {
      var db :- GetString(doc, "dbname");
      var coll :- GetString(doc, "collectionname");
      var name :- GetString(doc, "indexname");
      r := mongo.DeleteIndex(Namespace(db, coll), name, fault);
    }

    /** The inner try block of a read branch. */
    method TryRead(cls: MongoClass, doc: Document, fault: bool) returns (r: Result<Pointer, Reason>)
      ensures match Decode(mongo.driver, ReadOp, cls, doc)
              case Success(cmd) => IsRead(cmd) && mongo.Answers(cmd, fault, r)
              case Failure(e) => r == Failure(e)
    {
      match cls {
        case DbClass =>
          var name :- GetString(doc, "name");
          var listAll :- GetBool(doc, "list_all");
          r := mongo.ReadDB(name, listAll, fault);
        case CollectionClass =>
          var db :- GetString(doc, "dbname");
          var coll :- GetString(doc, "collectionname");
          var listAll :- GetBool(doc, "list_all");
          r := mongo.ReadCollection(Namespace(db, coll), listAll, fault);
        case DocumentClass =>
          var db :- GetString(doc, "dbname");
          var coll :- GetString(doc, "collectionname");
          var filter :- GetDocumentOrEmpty(doc, "filter");
          var options :- GetDocumentOrEmpty(doc, "options");
          r := mongo.ReadDocument(Namespace(db, coll), filter, options, fault);
        case IndexClass =>
          var db :- GetString(doc, "dbname");
          var coll :- GetString(doc, "collectionname");
          var name :- GetString(doc, "indexname");
          r := mongo.ReadIndex(Namespace(db, coll), name, fault);
      }
    }

    /** What reaches the client: the result document, or the error of the outer catch. */
    ghost predicate Delivered(op: CrudOperation, cls: MongoClass, doc: Document, fault: bool,
                              before: Store, r: Result<ResultDoc, Reason>)
      reads mongo
    {
      Perform(mongo.driver, Decode(mongo.driver, op, cls, doc), fault, before) ==
      (if r.Success? then r.value else Error(r.error), mongo.store)
    }

    /** The nested switches. `Success` is the value `result_doc` ends with; `Failure` is an
        exception that leaves the switch for the outer catch. */
    method Dispatch(op: CrudOperation, cls: MongoClass, doc: Document, fault: bool)
      returns (r: Result<ResultDoc, Reason>)
      modifies mongo
      ensures Delivered(op, cls, doc, fault, old(mongo.store), r)
    {
      match op {
        case CreateOp =>
          r := DispatchCreate(cls, doc, fault);
        case ReadOp =>
          r := DispatchRead(cls, doc, fault);
        case UpdateOp =>
          r := DispatchUpdate(cls, doc, fault);
        case DeleteOp =>
          r := DispatchDelete(cls, doc, fault);
      }
    }

    /** The inner catch: an exception becomes an error document, a normal end is "ok". */
    function Caught(tried: Result<(), Reason>): ResultDoc {
      if tried.Success? then Ok else Error(tried.error)
    }

    method DispatchCreate(cls: MongoClass, doc: Document, fault: bool) returns (r: Result<ResultDoc, Reason>)
      modifies mongo
      ensures Delivered(CreateOp, cls, doc, fault, old(mongo.store), r)
    {
      var tried: Result<(), Reason>;
      match cls {
        case DbClass =>
          tried := TryCreateDB(doc, fault);
        case CollectionClass =>
          tried := TryCreateCollection(doc, fault);
        case DocumentClass =>
          var data :- JsonData(mongo.driver, doc);
          tried := TryCreateDocument(doc, data, fault);
        case IndexClass =>
          tried := TryCreateIndex(doc, fault);
      }
      r := Success(Caught(tried));
    }

    method DispatchRead(cls: MongoClass, doc: Document, fault: bool) returns (r: Result<ResultDoc, Reason>)
      modifies mongo
      ensures Delivered(ReadOp, cls, doc, fault, old(mongo.store), r)
    {
      var resultDoc := NoResult;
      var tried := TryRead(cls, doc, fault);
      match tried {
        case Success(res) =>
          if res.Some? {
            resultDoc := OkData(res.value);
          }
        case Failure(e) =>
          resultDoc := Error(e);
      }
      r := Success(resultDoc);
    }

    method DispatchUpdate(cls: MongoClass, doc: Document, fault: bool) returns (r: Result<ResultDoc, Reason>)
      modifies mongo
      ensures Delivered(UpdateOp, cls, doc, fault, old(mongo.store), r)
    {
      var tried: Result<(), Reason>;
      match cls {
        case DbClass =>
          return Failure(CannotUpdate);
        case CollectionClass =>
          tried := TryUpdateCollection(doc, fault);
        case DocumentClass =>
          tried := TryUpdateDocument(doc, fault);
        case IndexClass =>
          return Failure(CannotUpdate);
      }
      r := Success(Caught(tried));
    }

    method DispatchDelete(cls: MongoClass, doc: Document, fault: bool) returns (r: Result<ResultDoc, Reason>)
      modifies mongo
      ensures Delivered(DeleteOp, cls, doc, fault, old(mongo.store), r)
    {
      var tried: Result<(), Reason>;
      match cls {
        case DbClass =>
          tried := TryDeleteDB(doc, fault);
        case CollectionClass =>
          tried := TryDeleteCollection(doc, fault);
        case DocumentClass =>
          tried := TryDeleteDocument(doc, fault);
        case IndexClass =>
          tried := TryDeleteIndex(doc, fault);
      }
      r := Success(Caught(tried));
    }

    /** The body of the outer try block. */
    method TryHandle(req: Request, fault: bool) returns (r: Result<ResultDoc, Reason>)
      modifies mongo
      ensures Perform(mongo.driver, CommandOf(mongo.driver, req), fault, old(mongo.store)) ==
              (if r.Success? then r.value else Error(r.error), mongo.store)
    {
      var op :- GetOperationType(QueryParam(req, "operation"));
      var cls :- GetMongoClass(QueryParam(req, "class"));
      var doc: Document := [];
      var parsed := mongo.driver.parse(req.content);
      if parsed.Some? {
        doc := parsed.value;
      }
      r := Dispatch(op, cls, doc, fault);
    }

    /** `handle`: the reply and the store are the ones the request means, and the initial
        "No result" never reaches a client. */
    method Handle(req: Request, fault: bool) returns (rep: Reply)
      modifies mongo
      ensures (rep, mongo.store) == Answer(mongo.driver, req, fault, old(mongo.store))
      ensures rep.body != Some(NoResult)
    {
      var resultDoc := NoResult;
      if req.verb != "POST" {
        return Reply(StatusBadRequest, true, None);
      }
      var tried := TryHandle(req, fault);
      match tried {
        case Success(doc) =>
          resultDoc := doc;
        case Failure(e) =>
          resultDoc := Error(e);
      }
      rep := Reply(StatusOk, true, Some(resultDoc));
    }
  }
}
