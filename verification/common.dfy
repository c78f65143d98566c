/** Failure-compatible wrappers, the client's error taxonomy and a small model
    of the JSON values the client sends. Shared by every other module. */
module Common {

  /** An optional value (Rust's `Option`). */
  datatype Option<+T> = None | Some(value: T)

  /** The errors the client raises. `Panic` stands for a Rust panic
      (`expect`, `unwrap`, `todo!`), which ends the program rather than
      returning to the caller; it is a value here so that the model can say
      exactly when it happens. */
  datatype Error =
    | NoApiKeySet             // error.rs: no credential registered
    | NoStreamSubscribed      // error.rs: the stream set is exhausted
    | ConnectionFailed        // the websocket handshake did not complete
    | Transport               // the transport reported an error on a stream
    | Malformed               // a frame did not deserialize into the expected union
    | SocketClosed            // a Close frame was received
    | Panic(reason: string)

  /** A value or an error (Rust's `Result` / `Fallible`). */
  datatype Result<+T> = Success(value: T) | Failure(error: Error) {
    predicate IsFailure() {
      Failure?
    }

    function PropagateFailure<U>(): Result<U>
      requires Failure?
    {
      Failure(error)
    }

    function Extract(): T
      requires Success?
    {
      value
    }
  }

  /** The JSON values the client builds with `json!`. serde_json's default
      object is a sorted map, so an object is a map from field name to value. */
  datatype Json =
    | JNull
    | JStr(s: string)
    | JInt(i: int)
    | JArr(items: seq<Json>)
    | JObj(fields: map<string, Json>)

  /** A JSON string, or `null` for a missing value (how `json!` renders an
      `Option<&String>`). */
  function JOptStr(v: Option<string>): Json
  {
    match v
    case Some(s) => JStr(s)
    case None => JNull
  }

  /** Some element of a non-empty set. */
  lemma AnyElement<T>(s: set<T>) returns (x: T)
    requires |s| > 0
    ensures x in s
  {
    if forall y :: y !in s {
      assert false;
    }
    x :| x in s;
  }
}
