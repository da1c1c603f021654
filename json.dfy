/** JSON values as Express sends them, and a mutable JSON object for Mongoose's `toJSON` transforms. */
module Json {
  import Wrappers

  datatype Value =
    | Null
    | Bool(b: bool)
    | Num(n: int)
    | Str(s: string)
    | Arr(items: seq<Value>)
    | Obj(fields: map<string, Value>)

  type Object = map<string, Value>

  /** `Str(s)` for a present string and `Null` for an absent one. */
  function StrOrNull(s: Wrappers.Option<string>): (v: Value)
    ensures s.Some? ==> v == Str(s.value)
    ensures s.None? ==> v == Null
  {
    match s
    case Some(x) => Str(x)
    case None => Null
  }

  /**
   * The plain object a `toJSON` transform receives as `ret` and edits in place;
   * the methods below are the edits it makes.
   */
  class Document {
    var fields: Object

    constructor (fields: Object)
      ensures this.fields == fields
    {
      this.fields := fields;
    }

    /** JavaScript's `delete ret[key]`: the key disappears, every other key keeps its value. */
    method Delete(key: string)
      modifies this
      ensures fields == old(fields) - {key}
    {
      fields := fields - {key};
    }
  }
}

/** The response a route handler sends: a status code and a JSON body. */
module Http {
  import Json

  datatype Response = Response(status: int, body: Json.Value)

  /** `res.status(code).json({ error: message })`. */
  function ErrorReply(status: int, message: string): (r: Response)
    ensures r.status == status && r.body.Obj? && r.body.fields.Keys == {"error"}
    ensures r.body.fields["error"] == Json.Str(message)
  {
    Response(status, Json.Obj(map["error" := Json.Str(message)]))
  }

  /** `res.status(code).json({ success: false, message })`. */
  function Refusal(status: int, message: string): (r: Response)
    ensures r.status == status && r.body.Obj? && r.body.fields.Keys == {"success", "message"}
    ensures r.body.fields["success"] == Json.Bool(false) && r.body.fields["message"] == Json.Str(message)
  {
    Response(status, Json.Obj(map["success" := Json.Bool(false), "message" := Json.Str(message)]))
  }
}
