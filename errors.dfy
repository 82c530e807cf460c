/** The catch-all `errorHandler`: any fault a handler throws becomes a 500
    response whose body depends on the deployment mode. */
module Errors {
  import opened Bookmarks

  /** `v.message`: an object's own `message` property; every other value has
      none. */
  function Property(v: Value, key: string): (r: Value)
    ensures v.Obj? && key in v.fields ==> r == v.fields[key]
    ensures !(v.Obj? && key in v.fields) ==> r == Undefined
  {
    match v
    case Obj(fields) => if key in fields then fields[key] else Undefined
    case _ => Undefined
  }

  /** The production body: `{"error": {"message": "server error"}}`. */
  function ServerErrorBody(): Value
  {
    Obj(map["error" := Obj(map["message" := Str("server error")])])
  }

  /** `errorHandler(error, …)` with `NODE_ENV` passed in as `nodeEnv`. The
      fault is never `undefined` or `null` (`error.message` would throw on
      those, and the framework does not call the handler with them). In
      "production" the body is fixed; in any other mode it carries the
      fault's message and the fault itself. */
  function ErrorHandler(nodeEnv: string, error: Value): (r: Response)
    requires error != Undefined && error != Null
    ensures r.status == 500 && r.body.Json? && r.body.value.Obj?
    ensures nodeEnv == "production" ==> r.body.value == ServerErrorBody()
    ensures nodeEnv != "production" ==>
              r.body.value.fields.Keys == {"message", "error"}
              && r.body.value.fields["message"] == Property(error, "message")
              && r.body.value.fields["error"] == error
  {
    if nodeEnv == "production" then
      Response(500, Json(ServerErrorBody()))
    else
      Response(500, Json(Obj(map["message" := Property(error, "message"), "error" := error])))
  }

  /** In production the response does not depend on the fault at all, so no
      detail of it reaches the client; outside production two faults with
      different messages give different responses. */
  lemma ProductionHidesFault(nodeEnv: string, e1: Value, e2: Value)
    requires e1 != Undefined && e1 != Null && e2 != Undefined && e2 != Null
    ensures nodeEnv == "production" ==> ErrorHandler(nodeEnv, e1) == ErrorHandler(nodeEnv, e2)
    ensures nodeEnv != "production" && Property(e1, "message") != Property(e2, "message")
            ==> ErrorHandler(nodeEnv, e1) != ErrorHandler(nodeEnv, e2)
  {
    if nodeEnv != "production" && Property(e1, "message") != Property(e2, "message") {
      var r1, r2 := ErrorHandler(nodeEnv, e1), ErrorHandler(nodeEnv, e2);
      assert r1.body.value.fields["message"] != r2.body.value.fields["message"];
    }
  }
}
