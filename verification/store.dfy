/**
 The state every controller works on: the application's tables, the body
 of the request, and what a handled request leaves behind (the tables after
 its writes and the response it sent).
 */
module Store {
  import opened Php
  import opened Http
  import opened BaseModel

  /** The application's tables. */
  datatype Db = Db(users: Table, properties: Table, tenants: Table, payments: Table,
                   maintenance: Table, notifications: Table)

  /** A handled request: the tables after its writes, and the response it ended with. */
  datatype Served = Served(db: Db, out: Outcome)

  /**
   Finishing a controller: a response sent by one of its checks leaves the
   tables as they were; otherwise the step carries both.
   */
  function Settle(db: Db, s: Step<Served>): (r: Served)
    ensures s.Halt? ==> r == Served(db, s.out)
    ensures s.Next? ==> r == s.value
  {
    match s
    case Halt(out) => Served(db, out)
    case Next(v) => v
  }

  /** The result of `json_decode(file_get_contents('php://input'), true)`. */
  datatype Body = Malformed | Decoded(value: Val)

  /** `json_last_error() !== JSON_ERROR_NONE`. */
  predicate JsonError(b: Body) { b.Malformed? }

  /** The answer to a body that is not valid JSON. */
  function InvalidJson(): Outcome { Error("Invalid JSON data") }

  /**
   json_encode and json_decode, for the columns that hold JSON text (a
   property's images and amenities); decoding what was encoded gives the
   value back.
   */
  datatype JsonCodec = JsonCodec(encode: Val -> string, decode: string -> Val)

  ghost predicate RoundTrips(j: JsonCodec) {
    forall v :: j.decode(j.encode(v)) == v
  }

  /**
   The decoded input as an array: a non-array (null on a decoding error, or
   a JSON scalar) reads as an array with no keys, because indexing it gives null.
   */
  function Input(b: Body): (r: Row)
    ensures b.Decoded? && b.value.Arr? ==> r == b.value.fields
    ensures !(b.Decoded? && b.value.Arr?) ==> r == map[]
  {
    if b.Decoded? && b.value.Arr? then b.value.fields else map[]
  }
}
