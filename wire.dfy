/** The values that cross the queue and the foreign libraries the worker calls on them. */
module Wire {
  import opened Wrappers

  newtype byte = x: int | 0 <= x < 256

  /** A ZeroMQ message part. */
  type Bytes = seq<byte>

  /** A JSON value as `json.loads` returns it; numbers are restricted to integers. */
  datatype Json =
    | Null
    | Bool(b: bool)
    | Number(n: int)
    | Str(s: string)
    | Array(items: seq<Json>)
    | Object(members: seq<(string, Json)>)

  /** The `(name, value)` pairs that `headers.items()` lists. */
  type HeaderItems = seq<(string, string)>

  /**
   * The library calls the worker makes, each a function the model does not look inside.
   * A partial one returns `None` where the library raises.
   *   utf8Decode       -- `bytes.decode()`: raises on bytes that are not UTF-8
   *   utf8Encode       -- `str.encode('utf-8')`
   *   jsonLoads        -- `json.loads`: raises on text that is not JSON
   *   jsonDumps        -- `json.dumps`
   *   toHeaders        -- `httpx.Headers(...)` followed by `.items()`: raises on a value it cannot take
   *   isCompletionRequest -- whether pydantic accepts `CompletionRequest(**fields)`
   */
  datatype Foreign = Foreign(
    utf8Decode: Bytes -> Option<string>,
    utf8Encode: string -> Bytes,
    jsonLoads: string -> Option<Json>,
    jsonDumps: Json -> string,
    toHeaders: Json -> Option<HeaderItems>,
    isCompletionRequest: seq<(string, Json)> -> bool)

  /**
   * No object inside `j` names a key twice. `json.loads` keeps only the last value of a
   * repeated key, so only such values can come back from loading what was dumped.
   */
  predicate DistinctKeys(j: Json)
    decreases j
  {
    match j
    case Array(items) => forall k :: 0 <= k < |items| ==> DistinctKeys(items[k])
    case Object(members) =>
      && (forall a, b :: 0 <= a < b < |members| ==> members[a].0 != members[b].0)
      && forall k :: 0 <= k < |members| ==> DistinctKeys(members[k].1)
    case _ => true
  }

  /**
   * What the libraries are relied on for: decoding undoes encoding, and loading undoes
   * dumping for every value whose objects have distinct keys.
   */
  ghost predicate Lawful(f: Foreign) {
    && (forall s: string :: f.utf8Decode(f.utf8Encode(s)) == Some(s))
    && (forall j: Json :: DistinctKeys(j) ==> f.jsonLoads(f.jsonDumps(j)) == Some(j))
  }

  /** The two content types a worker ever sends, as the ASCII text of the second frame part. */
  const ApplicationJson: string := "application/json"
  const EventStream: string := "text/event-stream"

  /** One outbound three-part message: client identity, content type, payload. */
  datatype Frame = Frame(identity: Bytes, contentType: string, payload: Bytes)
}
