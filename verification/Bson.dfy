/** Documents with partial, typed field access, as bsoncxx offers it. */
module Bson {
  import opened Outcomes

  datatype Value =
    | Null
    | Bool(b: bool)
    | Int32(n: int)
    | Str(s: string)
    | Doc(fields: seq<Field>)
    | Arr(items: seq<Value>)
    | Other(tag: nat)

  datatype Field = Field(name: string, value: Value)

  type Document = seq<Field>

  /** Why an exception was thrown. */
  datatype Reason =
    | InvalidOperation
    | InvalidClass
    | BadField
    | InvalidJsonData
    | MalformedJson
    | CannotUpdate
    | DriverError

  /** The first field of that name. */
  function Lookup(doc: Document, name: string): Option<Value> {
    if |doc| == 0 then None
    else if doc[0].name == name then Some(doc[0].value)
    else Lookup(doc[1..], name)
  }

  lemma {:induction false} LookupIsFirst(doc: Document, name: string, k: nat)
    requires k <= |doc| && forall i :: 0 <= i < k ==> doc[i].name != name
    ensures k == |doc| ==> Lookup(doc, name) == None
    ensures k < |doc| && doc[k].name == name ==> Lookup(doc, name) == Some(doc[k].value)
  {
    if k > 0 {
      assert doc[0].name != name;
      LookupIsFirst(doc[1..], name, k - 1);
    }
  }

  function GetValue(doc: Document, name: string): Result<Value, Reason> {
    match Lookup(doc, name)
    case Some(v) => Success(v)
    case None => Failure(BadField)
  }

  function GetString(doc: Document, name: string): Result<string, Reason> {
    match Lookup(doc, name)
    case Some(Str(s)) => Success(s)
    case _ => Failure(BadField)
  }

  function GetBool(doc: Document, name: string): Result<bool, Reason> {
    match Lookup(doc, name)
    case Some(Bool(b)) => Success(b)
    case _ => Failure(BadField)
  }

  function GetInt32(doc: Document, name: string): Result<int, Reason> {
    match Lookup(doc, name)
    case Some(Int32(n)) => Success(n)
    case _ => Failure(BadField)
  }

  function GetDocument(doc: Document, name: string): Result<Document, Reason> {
    match Lookup(doc, name)
    case Some(Doc(d)) => Success(d)
    case _ => Failure(BadField)
  }

  /** An absent field stands for the empty document; one of another type throws. */
  function GetDocumentOrEmpty(doc: Document, name: string): Result<Document, Reason> {
    if Lookup(doc, name).None? then Success([]) else GetDocument(doc, name)
  }

  /** A one-field document holding an array of documents. */
  function Wrapped(key: string, entries: seq<Document>): Document {
    [Field(key, Arr(AsValues(entries)))]
  }

  function AsValues(entries: seq<Document>): seq<Value> {
    if |entries| == 0 then [] else AsValues(entries[..|entries| - 1]) + [Doc(entries[|entries| - 1])]
  }

  function ErrorEntry(text: string): Document {
    [Field("error", Str(text))]
  }
}
