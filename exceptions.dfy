/** `APIException`: the error value every endpoint raises, and its JSON
    rendering. */
module Exceptions {
  import opened Json

  /** The class attribute `status_code`. */
  const DEFAULT_STATUS := 400

  /** The exception's `args`: `(message, status, payload)`. */
  datatype ApiException = ApiException(message: Json, status: Json, payload: Json)

  /** `APIException(message, status_code=None, payload=None)`: a falsy status
      falls back to 400, the rest is stored as given. */
  function Raise(message: Json, status: Json, payload: Json): (e: ApiException)
    ensures Args(e) == [message, if Truthy(status) then status else Int(DEFAULT_STATUS), payload]
    ensures Truthy(e.status)
  {
    ApiException(message, if Truthy(status) then status else Int(DEFAULT_STATUS), payload)
  }

  function Args(e: ApiException): seq<Json> {
    [e.message, e.status, e.payload]
  }

  /** `dict(payload or ())`: a falsy payload adds nothing. */
  function PayloadItems(payload: Json): (r: Fields)
    requires payload.Null? || payload.Obj?
    ensures !Truthy(payload) ==> r == []
    ensures payload.Obj? ==> r == payload.fields
  {
    if payload.Obj? then payload.fields else []
  }

  /** `to_json`: the body holds `message` and `status_code`, then every
      payload key, the payload winning on a clash; the second component is
      the status. */
  function ToJson(e: ApiException): (r: (Fields, Json))
    requires e.payload.Null? || e.payload.Obj?
    ensures r.1 == e.status
    ensures Keys(r.0) == {"message", "status_code"} + Keys(PayloadItems(e.payload))
    ensures NoDup(PayloadItems(e.payload)) ==>
      forall k | k in Keys(PayloadItems(e.payload)) :: Get(r.0, k) == Get(PayloadItems(e.payload), k)
    ensures "message" !in Keys(PayloadItems(e.payload)) ==> Get(r.0, "message") == Some(e.message)
    ensures "status_code" !in Keys(PayloadItems(e.payload)) ==> Get(r.0, "status_code") == Some(e.status)
    ensures NoDup(PayloadItems(e.payload)) ==> NoDup(r.0)
    ensures !Truthy(e.payload) ==> r.0 == [("message", e.message), ("status_code", e.status)]
  {
    var base := [("message", e.message), ("status_code", e.status)];
    var tail := [("status_code", e.status)];
    assert base[1..] == tail && tail[1..] == [];
    assert Keys(tail) == {"status_code"};
    assert Keys(base) == {"message", "status_code"};
    assert NoDup(tail);
    assert Get(base, "status_code") == Some(e.status);
    (Update(base, PayloadItems(e.payload)), e.status)
  }

  /** `dump_api_exc`: the handler's rendering is `to_json`. */
  function DumpApiExc(e: ApiException): (r: (Fields, Json))
    requires e.payload.Null? || e.payload.Obj?
    ensures r == ToJson(e)
  {
    ToJson(e)
  }

  /** Without payload the body is exactly `message` and the status, and the
      status defaults to 400 when none is given. */
  lemma BareException(message: Json, status: Json)
    ensures ToJson(Raise(message, status, Null)).0 ==
      [("message", message), ("status_code", if Truthy(status) then status else Int(400))]
    ensures !Truthy(status) ==> ToJson(Raise(message, status, Null)).1 == Int(400)
    ensures Truthy(status) ==> ToJson(Raise(message, status, Null)).1 == status
  {
  }

  /** An explicit status survives into the rendered response, whatever the
      payload holds. */
  lemma StatusKept(message: Json, status: Json, payload: Fields)
    requires Truthy(status) && NoDup(payload)
    ensures ToJson(Raise(message, status, Obj(payload))).1 == status
    ensures forall k | k in Keys(payload) :: Get(ToJson(Raise(message, status, Obj(payload))).0, k) == Get(payload, k)
    ensures "status_code" !in Keys(payload) ==>
      Get(ToJson(Raise(message, status, Obj(payload))).0, "status_code") == Some(status)
  {
  }
}
