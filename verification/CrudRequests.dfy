/** Which requests stand for which commands, said of the request as it arrives: its query
    parameters and what its content parses to. */
module CrudRequests {
  import opened Outcomes
  import opened Bson
  import opened MongoStore
  import opened MongoInterface
  import opened CrudHandler

  function OperationOf(cmd: Command): CrudOperation {
    if cmd.CreateDB? || cmd.CreateCollection? || cmd.CreateDocument? || cmd.CreateIndex? then CreateOp
    else if IsRead(cmd) then ReadOp
    else if cmd.UpdateCollection? || cmd.UpdateDocument? then UpdateOp
    else DeleteOp
  }

  function ClassOf(cmd: Command): MongoClass {
    if cmd.CreateDB? || cmd.ReadDB? || cmd.DeleteDB? then DbClass
    else if cmd.CreateIndex? || cmd.ReadIndex? || cmd.DeleteIndex? then IndexClass
    else if cmd.CreateDocument? || cmd.ReadDocument? || cmd.UpdateDocument? || cmd.DeleteDocument? then DocumentClass
    else CollectionClass
  }

  function OperationName(op: CrudOperation): string {
    match op
    case CreateOp => "create"
    case ReadOp => "read"
    case UpdateOp => "update"
    case DeleteOp => "delete"
  }

  function ClassName(cls: MongoClass): string {
    match cls
    case DbClass => "db"
    case CollectionClass => "collection"
    case DocumentClass => "document"
    case IndexClass => "index"
  }

  lemma {:induction false} NamesRoundTrip(s: string, op: CrudOperation, cls: MongoClass)
    ensures GetOperationType(s) == Success(op) <==> s == OperationName(op)
    ensures GetMongoClass(s) == Success(cls) <==> s == ClassName(cls)
  {
  }

  function NamespaceFields(ns: Namespace): Document {
    [Field("dbname", Str(ns.db)), Field("collectionname", Str(ns.coll))]
  }

  /** The body a client writes for a command. */
  function BodyFields(cmd: Command): Document {
    match cmd
    case CreateDB(name) => [Field("name", Str(name))]
    case CreateCollection(ns) => NamespaceFields(ns)
    case CreateDocument(ns, doc) => NamespaceFields(ns) + [Field("json_data", Doc(doc))]
    case CreateIndex(ns, keys, options) =>
      NamespaceFields(ns) + [Field("keys", Doc(keys)), Field("index_options", Doc(options))]
    case ReadDB(name, listAll) => [Field("name", Str(name)), Field("list_all", Bool(listAll))]
    case ReadCollection(ns, listAll) => NamespaceFields(ns) + [Field("list_all", Bool(listAll))]
    case ReadDocument(ns, filter, options) =>
      NamespaceFields(ns) + [Field("filter", Doc(filter)), Field("options", Doc(options))]
    case ReadIndex(ns, name) => NamespaceFields(ns) + [Field("indexname", Str(name))]
    case UpdateCollection(db, oldName, newName) =>
      [Field("dbname", Str(db)), Field("oldname", Str(oldName)), Field("newname", Str(newName))]
    case UpdateDocument(ns, many, filter, update) =>
      NamespaceFields(ns) +
      [Field("updmany", Bool(many)), Field("filter", Doc(filter)), Field("fields_toupd", Doc(update))]
    case DeleteDB(db) => [Field("dbname", Str(db))]
    case DeleteCollection(ns) => NamespaceFields(ns)
    case DeleteDocument(ns, many, filter) =>
      NamespaceFields(ns) + [Field("delmany", Bool(many)), Field("filter", Doc(filter))]
    case DeleteIndex(ns, name) => NamespaceFields(ns) + [Field("indexname", Str(name))]
  }

  predicate Given(req: Request, name: string, value: string) {
    name in req.params && req.params[name] == value
  }

  predicate Names(req: Request, cmd: Command) {
    && Given(req, "operation", OperationName(OperationOf(cmd)))
    && Given(req, "class", ClassName(ClassOf(cmd)))
  }

  /** The document that a value given as json_data denotes: itself, what the text parses to,
      or the array stored under "json_data". */
  predicate Denotes(driver: Driver, form: Value, doc: Document) {
    || form == Doc(doc)
    || (form.Str? && driver.parse(form.s) == Some(doc))
    || (form.Arr? && doc == [Field("json_data", form)])
  }

  /** A field of the command can be read off the body: written out, left out where a read
      takes the empty document for it, or as a form of json_data that denotes it. */
  predicate Said(driver: Driver, body: Document, cmd: Command, field: Field) {
    var given := Lookup(body, field.name);
    || given == Some(field.value)
    || (cmd.ReadDocument? && field.value == Doc([]) && given.None?)
    || (cmd.CreateDocument? && field.name == "json_data" && given.Some? && Denotes(driver, given.value, cmd.doc))
  }

  /** The body says all of the command; other fields and the order are free. Options for a
      new collection may be given as a document and are not used. */
  ghost predicate Says(driver: Driver, body: Document, cmd: Command) {
    && (forall i :: 0 <= i < |BodyFields(cmd)| ==> Said(driver, body, cmd, BodyFields(cmd)[i]))
    && (cmd.CreateCollection? ==>
          var options := Lookup(body, "collection_options");
          options.Some? ==> options.value.Doc?)
  }

  /** The request asks for the command: it names its operation and class, and its content
      parses to a body that says it. */
  ghost predicate Asked(driver: Driver, req: Request, cmd: Command) {
    && Names(req, cmd)
    && driver.parse(req.content).Some?
    && Says(driver, driver.parse(req.content).value, cmd)
  }

  // ---------------------------------------------------------------- who asks is understood

  lemma {:induction false} NamespaceSaid(driver: Driver, body: Document, cmd: Command, ns: Namespace)
    requires Says(driver, body, cmd) && NamespaceFields(ns) <= BodyFields(cmd)
    ensures GetNamespace(body) == Success(ns)
  {
    var fields := BodyFields(cmd);
    assert fields[0] == NamespaceFields(ns)[0] && fields[1] == NamespaceFields(ns)[1];
    assert Said(driver, body, cmd, fields[0]) && Said(driver, body, cmd, fields[1]);
  }

  lemma {:induction false} DataDenoted(driver: Driver, body: Document, form: Value, doc: Document)
    requires Lookup(body, "json_data") == Some(form)
    ensures JsonData(driver, body) == Success(doc) <==> Denotes(driver, form, doc)
  {
  }

  lemma {:induction false} CreateAsked(driver: Driver, body: Document, cmd: Command)
    requires OperationOf(cmd) == CreateOp && Says(driver, body, cmd)
    ensures Decode(driver, CreateOp, ClassOf(cmd), body) == Success(cmd)
  {
    var fields := BodyFields(cmd);
    match cmd
    case CreateDB(_) =>
      assert Said(driver, body, cmd, fields[0]);
    case CreateCollection(ns) =>
      NamespaceSaid(driver, body, cmd, ns);
    case CreateDocument(ns, _) =>
      NamespaceSaid(driver, body, cmd, ns);
      assert Said(driver, body, cmd, fields[2]);
      if Lookup(body, "json_data").Some? {
        DataDenoted(driver, body, Lookup(body, "json_data").value, cmd.doc);
      }
    case CreateIndex(ns, _, _) =>
      NamespaceSaid(driver, body, cmd, ns);
      assert Said(driver, body, cmd, fields[2]) && Said(driver, body, cmd, fields[3]);
  }

  lemma {:induction false} ReadAsked(driver: Driver, body: Document, cmd: Command)
    requires OperationOf(cmd) == ReadOp && Says(driver, body, cmd)
    ensures Decode(driver, ReadOp, ClassOf(cmd), body) == Success(cmd)
  {
    var fields := BodyFields(cmd);
    match cmd
    case ReadDB(_, _) =>
      assert Said(driver, body, cmd, fields[0]) && Said(driver, body, cmd, fields[1]);
    case ReadCollection(ns, _) =>
      NamespaceSaid(driver, body, cmd, ns);
      assert Said(driver, body, cmd, fields[2]);
    case ReadDocument(ns, _, _) =>
      NamespaceSaid(driver, body, cmd, ns);
      assert Said(driver, body, cmd, fields[2]) && Said(driver, body, cmd, fields[3]);
    case ReadIndex(ns, _) =>
      NamespaceSaid(driver, body, cmd, ns);
      assert Said(driver, body, cmd, fields[2]);
  }

  lemma {:induction false} UpdateAsked(driver: Driver, body: Document, cmd: Command)
    requires OperationOf(cmd) == UpdateOp && Says(driver, body, cmd)
    ensures Decode(driver, UpdateOp, ClassOf(cmd), body) == Success(cmd)
  {
    var fields := BodyFields(cmd);
    match cmd
    case UpdateCollection(_, _, _) =>
      assert Said(driver, body, cmd, fields[0]) && Said(driver, body, cmd, fields[1]);
      assert Said(driver, body, cmd, fields[2]);
    case UpdateDocument(ns, _, _, _) =>
      NamespaceSaid(driver, body, cmd, ns);
      assert Said(driver, body, cmd, fields[2]) && Said(driver, body, cmd, fields[3]);
      assert Said(driver, body, cmd, fields[4]);
  }

  lemma {:induction false} DeleteAsked(driver: Driver, body: Document, cmd: Command)
    requires OperationOf(cmd) == DeleteOp && Says(driver, body, cmd)
    ensures Decode(driver, DeleteOp, ClassOf(cmd), body) == Success(cmd)
  {
    var fields := BodyFields(cmd);
    match cmd
    case DeleteDB(_) =>
      assert Said(driver, body, cmd, fields[0]);
    case DeleteCollection(ns) =>
      NamespaceSaid(driver, body, cmd, ns);
    case DeleteDocument(ns, _, _) =>
      NamespaceSaid(driver, body, cmd, ns);
      assert Said(driver, body, cmd, fields[2]) && Said(driver, body, cmd, fields[3]);
    case DeleteIndex(ns, _) =>
      NamespaceSaid(driver, body, cmd, ns);
      assert Said(driver, body, cmd, fields[2]);
  }

  /** A request that asks for a command stands for it. */
  lemma {:induction false} RequestRoundTrip(driver: Driver, req: Request, cmd: Command)
    requires Asked(driver, req, cmd)
    ensures CommandOf(driver, req) == Success(cmd)
  {
    var body := driver.parse(req.content).value;
    NamesRoundTrip(req.params["operation"], OperationOf(cmd), ClassOf(cmd));
    NamesRoundTrip(req.params["class"], OperationOf(cmd), ClassOf(cmd));
    match OperationOf(cmd)
    case CreateOp => CreateAsked(driver, body, cmd);
    case ReadOp => ReadAsked(driver, body, cmd);
    case UpdateOp => UpdateAsked(driver, body, cmd);
    case DeleteOp => DeleteAsked(driver, body, cmd);
  }

  // ---------------------------------------------------------------- nobody else is

  lemma {:induction false} CreateOrReadSaid(
      driver: Driver, op: CrudOperation, cls: MongoClass, body: Document, cmd: Command, field: Field)
    requires (op == CreateOp || op == ReadOp) && Decode(driver, op, cls, body) == Success(cmd)
    requires field in BodyFields(cmd)
    ensures OperationOf(cmd) == op && ClassOf(cmd) == cls && Said(driver, body, cmd, field)
  {
    match cls
    case DbClass => assert if op == CreateOp then cmd.CreateDB? else cmd.ReadDB?;
    case CollectionClass => assert if op == CreateOp then cmd.CreateCollection? else cmd.ReadCollection?;
    case DocumentClass => assert if op == CreateOp then cmd.CreateDocument? else cmd.ReadDocument?;
    case IndexClass => assert if op == CreateOp then cmd.CreateIndex? else cmd.ReadIndex?;
  }

  lemma {:induction false} UpdateOrDeleteSaid(
      driver: Driver, op: CrudOperation, cls: MongoClass, body: Document, cmd: Command, field: Field)
    requires (op == UpdateOp || op == DeleteOp) && Decode(driver, op, cls, body) == Success(cmd)
    requires field in BodyFields(cmd)
    ensures OperationOf(cmd) == op && ClassOf(cmd) == cls && Said(driver, body, cmd, field)
  {
    match cls
    case DbClass => assert cmd.DeleteDB?;
    case CollectionClass => assert if op == UpdateOp then cmd.UpdateCollection? else cmd.DeleteCollection?;
    case DocumentClass => assert if op == UpdateOp then cmd.UpdateDocument? else cmd.DeleteDocument?;
    case IndexClass => assert cmd.DeleteIndex?;
  }

  lemma {:induction false} DecodedSays(
      driver: Driver, op: CrudOperation, cls: MongoClass, body: Document, cmd: Command)
    requires Decode(driver, op, cls, body) == Success(cmd)
    ensures OperationOf(cmd) == op && ClassOf(cmd) == cls
    ensures forall i :: 0 <= i < |BodyFields(cmd)| ==> Said(driver, body, cmd, BodyFields(cmd)[i])
  {
    assert |BodyFields(cmd)| > 0;
    forall field | field in BodyFields(cmd)
      ensures OperationOf(cmd) == op && ClassOf(cmd) == cls && Said(driver, body, cmd, field)
    {
      if op == CreateOp || op == ReadOp {
        CreateOrReadSaid(driver, op, cls, body, cmd, field);
      } else {
        UpdateOrDeleteSaid(driver, op, cls, body, cmd, field);
      }
    }
    assert BodyFields(cmd)[0] in BodyFields(cmd);
  }

  lemma {:induction false} NothingFromNothing(driver: Driver, op: CrudOperation, cls: MongoClass)
    ensures Decode(driver, op, cls, []).Failure?
  {
  }

  /** A request stands only for what it asks for; one whose content does not parse, for
      nothing. */
  lemma {:induction false} UnderstoodOnlyAsSaid(driver: Driver, req: Request, cmd: Command)
    requires CommandOf(driver, req) == Success(cmd)
    ensures Asked(driver, req, cmd)
  {
    var op := GetOperationType(QueryParam(req, "operation")).value;
    var cls := GetMongoClass(QueryParam(req, "class")).value;
    NamesRoundTrip(QueryParam(req, "operation"), op, cls);
    NamesRoundTrip(QueryParam(req, "class"), op, cls);
    NothingFromNothing(driver, op, cls);
    DecodedSays(driver, op, cls, Body(driver, req), cmd);
  }

  // ---------------------------------------------------------------- every command can be asked for

  ghost predicate DistinctNames(fields: Document) {
    forall i, j :: 0 <= i < j < |fields| ==> fields[i].name != fields[j].name
  }

  lemma {:induction false} LookupInDistinct(fields: Document, i: nat)
    requires DistinctNames(fields) && i < |fields|
    ensures Lookup(fields, fields[i].name) == Some(fields[i].value)
  {
    if i > 0 {
      assert fields[0].name != fields[i].name;
      LookupInDistinct(fields[1..], i - 1);
    }
  }

  lemma {:induction false} FieldsDistinct(cmd: Command)
    ensures DistinctNames(BodyFields(cmd))
  {
  }

  lemma {:induction false} NoOptionsWritten(ns: Namespace)
    ensures Lookup(NamespaceFields(ns), "collection_options").None?
  {
    assert NamespaceFields(ns)[1..] == [Field("collectionname", Str(ns.coll))];
    assert Lookup(NamespaceFields(ns)[1..], "collection_options").None?;
  }

  /** The request a client writes for a command asks for it. */
  lemma {:induction false} WrittenRequestAsks(driver: Driver, cmd: Command, content: string)
    requires driver.parse(content) == Some(BodyFields(cmd))
    ensures var params := map["operation" := OperationName(OperationOf(cmd)), "class" := ClassName(ClassOf(cmd))];
            Asked(driver, Request("POST", params, content), cmd)
  {
    var fields := BodyFields(cmd);
    FieldsDistinct(cmd);
    forall i | 0 <= i < |fields| ensures Said(driver, fields, cmd, fields[i]) {
      LookupInDistinct(fields, i);
    }
    if cmd.CreateCollection? {
      NoOptionsWritten(cmd.ns);
    }
  }

  // ---------------------------------------------------------------- forms of json_data

  ghost predicate CreatesDocument(driver: Driver, req: Request, body: Document) {
    && req.verb == "POST" && Given(req, "operation", "create") && Given(req, "class", "document")
    && driver.parse(req.content) == Some(body)
  }

  /** The two bodies agree but for json_data. */
  ghost predicate SameButData(a: Document, b: Document) {
    forall name :: name != "json_data" ==> Lookup(a, name) == Lookup(b, name)
  }

  ghost predicate SameAnswers(driver: Driver, a: Request, b: Request) {
    forall fault, store :: Answer(driver, a, fault, store) == Answer(driver, b, fault, store)
  }

  lemma {:induction false} CreateCommand(driver: Driver, req: Request, body: Document)
    requires CreatesDocument(driver, req, body)
    ensures CommandOf(driver, req) == Decode(driver, CreateOp, DocumentClass, body)
  {
  }

  lemma {:induction false} InsertIntoNothing(driver: Driver, req: Request, ns: Namespace, doc: Document)
    requires req.verb == "POST" && CommandOf(driver, req) == Success(CreateDocument(ns, doc))
    ensures Answer(driver, req, false, map[]).1 == map[ns := Collection([doc], [ID_INDEX])]
  {
    assert NEW_COLLECTION.docs + [doc] == [doc];
  }

  /** Inserts into an empty store tell documents apart. */
  lemma {:induction false} SameInsertSameDocument(
      driver: Driver, a: Request, b: Request, x: Document, y: Document, doc: Document)
    requires CreatesDocument(driver, a, x) && CreatesDocument(driver, b, y) && SameAnswers(driver, a, b)
    requires GetNamespace(x).Success? && GetNamespace(x) == GetNamespace(y) && JsonData(driver, x) == Success(doc)
    ensures JsonData(driver, y) == Success(doc)
  {
    CreateCommand(driver, a, x);
    CreateCommand(driver, b, y);
    var ns := GetNamespace(x).value;
    var data := JsonData(driver, y);
    var after := Answer(driver, b, false, map[]).1;
    assert data.Failure? ==> after == map[];
    InsertIntoNothing(driver, a, ns, doc);
    assert ns in after && after[ns].docs == [doc];
    InsertIntoNothing(driver, b, ns, data.value);
  }

  /** A client may give the document to insert in any form that denotes it: two requests
      that differ only in that get the same answer, whatever is stored and whatever throws.
      When the namespace is given, no other form of json_data does. */
  lemma {:induction false} JsonDataForms(
      driver: Driver, a: Request, b: Request, x: Document, y: Document, doc: Document, form: Value)
    requires CreatesDocument(driver, a, x) && CreatesDocument(driver, b, y) && SameButData(x, y)
    requires Lookup(x, "json_data") == Some(Doc(doc)) && Lookup(y, "json_data") == Some(form)
    ensures Denotes(driver, form, doc) ==> SameAnswers(driver, a, b)
    ensures GetNamespace(x).Success? && SameAnswers(driver, a, b) ==> Denotes(driver, form, doc)
  {
    CreateCommand(driver, a, x);
    CreateCommand(driver, b, y);
    DataDenoted(driver, x, Doc(doc), doc);
    DataDenoted(driver, y, form, doc);
    assert GetNamespace(x) == GetNamespace(y);
    if GetNamespace(x).Success? && SameAnswers(driver, a, b) {
      SameInsertSameDocument(driver, a, b, x, y, doc);
    }
  }

  // ---------------------------------------------------------------- why a request is refused

  predicate KnownOperation(req: Request) {
    "operation" in req.params && req.params["operation"] in {"create", "read", "update", "delete"}
  }

  predicate KnownClass(req: Request) {
    "class" in req.params && req.params["class"] in {"db", "collection", "document", "index"}
  }

  /** The content gives json_data, in a form that cannot be inserted. */
  predicate GivesBadData(driver: Driver, req: Request, text: bool) {
    && Given(req, "operation", "create") && Given(req, "class", "document")
    && driver.parse(req.content).Some?
    && match Lookup(driver.parse(req.content).value, "json_data")
       case Some(Str(s)) => text && driver.parse(s).None?
       case Some(Doc(_)) => false
       case Some(Arr(_)) => false
       case Some(_) => !text
       case None => false
  }

  /** The reason a request is refused for: an unknown operation before an unknown class,
      then an update that is not offered, then data that cannot be inserted, and a missing
      or mistyped field in all other cases. */
  lemma {:induction false} RefusedFor(driver: Driver, req: Request, reason: Reason)
    requires CommandOf(driver, req) == Failure(reason)
    ensures reason == InvalidOperation <==> !KnownOperation(req)
    ensures reason == InvalidClass <==> KnownOperation(req) && !KnownClass(req)
    ensures reason == CannotUpdate <==>
            Given(req, "operation", "update") && (Given(req, "class", "db") || Given(req, "class", "index"))
    ensures reason == InvalidJsonData <==> GivesBadData(driver, req, false)
    ensures reason == MalformedJson <==> GivesBadData(driver, req, true)
    ensures reason in {InvalidOperation, InvalidClass, CannotUpdate, InvalidJsonData, MalformedJson, BadField}
  {
    var op, cls := GetOperationType(QueryParam(req, "operation")), GetMongoClass(QueryParam(req, "class"));
    if op.Success? && cls.Success? {
      DecodeRefuses(driver, op.value, cls.value, Body(driver, req));
    }
  }

  lemma {:induction false} DecodeRefuses(driver: Driver, op: CrudOperation, cls: MongoClass, body: Document)
    requires Decode(driver, op, cls, body).Failure?
    ensures var reason := Decode(driver, op, cls, body).error;
            if op == UpdateOp && (cls == DbClass || cls == IndexClass) then reason == CannotUpdate
            else if op == CreateOp && cls == DocumentClass && JsonData(driver, body).Failure?
            then reason == JsonData(driver, body).error
            else reason == BadField
  {
  }
}
