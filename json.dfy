/**
 * A response body as Python's `json.loads` hands it to the app: objects keep
 * their members in document order, and a key that appears twice reads as its
 * last binding. Numbers are integers.
 */
module Json {
  import opened Wrappers
  import Text

  datatype Json =
    | JNull
    | JBool(b: bool)
    | JNum(n: int)
    | JStr(s: string)
    | JArray(items: seq<Json>)
    | JObject(members: seq<(string, Json)>)

  /** Python's truth value of the decoded value (`if value:`). */
  predicate Truthy(j: Json)
    ensures Truthy(j) <==> j !in {JNull, JBool(false), JNum(0), JStr(""), JArray([]), JObject([])}
  {
    match j
    case JNull => false
    case JBool(b) => b
    case JNum(n) => n != 0
    case JStr(s) => s != ""
    case JArray(items) => items != []
    case JObject(members) => members != []
  }

  /** The value bound to `key`, taking the last binding as `json.loads` does. */
  function Lookup(members: seq<(string, Json)>, key: string): (r: Option<Json>)
    ensures r.None? <==> forall i :: 0 <= i < |members| ==> members[i].0 != key
    ensures r.Some? ==> exists i :: 0 <= i < |members| && members[i] == (key, r.value)
                                    && forall k :: i < k < |members| ==> members[k].0 != key
  {
    if members == [] then None
    else if members[|members| - 1].0 == key then Some(members[|members| - 1].1)
    else Lookup(members[..|members| - 1], key)
  }

  /** Python `key in d` for a decoded object. */
  predicate HasKey(obj: Json, key: string)
    requires obj.JObject?
  {
    Lookup(obj.members, key).Some?
  }

  /** `key in d` holds exactly when some member of the document has that key. */
  lemma HasKeyIffBound(obj: Json, key: string)
    requires obj.JObject?
    ensures HasKey(obj, key) <==> exists i :: 0 <= i < |obj.members| && obj.members[i].0 == key
  {
  }

  /** Python `d.get(key, default)` for a decoded object. */
  function Get(obj: Json, key: string, default: Json): (r: Json)
    requires obj.JObject?
    ensures !HasKey(obj, key) ==> r == default
  {
    match Lookup(obj.members, key)
    case Some(v) => v
    case None => default
  }

  /** For a present key, `d.get` gives the value of the key's last member in the document. */
  lemma GetLastBinding(obj: Json, key: string, default: Json)
    requires obj.JObject? && HasKey(obj, key)
    ensures exists i :: 0 <= i < |obj.members| && obj.members[i] == (key, Get(obj, key, default))
                        && forall k :: i < k < |obj.members| ==> obj.members[k].0 != key
  {
  }

  /** Python `repr(value)`; strings are quoted without escaping. */
  function Repr(j: Json): (r: string)
    ensures |r| > 0
  {
    match j
    case JNull => "None"
    case JBool(b) => if b then "True" else "False"
    case JNum(n) => Text.IntToDecimal(n)
    case JStr(s) => "'" + s + "'"
    case JArray(items) =>
      "[" + Text.Join(seq(|items|, i requires 0 <= i < |items| => Repr(items[i])), ", ") + "]"
    case JObject(members) =>
      "{" + Text.Join(seq(|members|, i requires 0 <= i < |members| =>
                            "'" + members[i].0 + "': " + Repr(members[i].1)), ", ") + "}"
  }

  /** Python `str(value)`, which is what an f-string interpolates. */
  function Str(j: Json): (r: string)
    ensures j.JStr? ==> r == j.s
    ensures !j.JStr? ==> |r| > 0
  {
    if j.JStr? then j.s else Repr(j)
  }
}

/** What one HTTPS request to a third-party endpoint came back with. */
module Http {
  import opened Json

  /** A response body as the app reads it: `data.decode("utf-8")`, then `json.loads`. */
  datatype Body =
    | Undecodable           // not valid UTF-8: decoding raises `UnicodeDecodeError`
    | Malformed             // valid UTF-8, but `json.loads` raises `JSONDecodeError`
    | Decoded(value: Json)  // the decoded JSON value

  /**
   * `HttpClientError`: the request raised an `http.client.HTTPException`
   * (a malformed or cut-off response). `OsError`: the request raised an
   * `OSError` (name resolution, refused connection, TLS failure, timeout).
   * `Reply`: the status code and the body.
   */
  datatype Exchange =
    | HttpClientError
    | OsError
    | Reply(status: int, body: Body)

  predicate IsSuccess(status: int) {
    200 <= status < 300
  }
}
