/**
 * Values shared by every handler: optional values, the API's error kinds,
 * JSON documents, and JavaScript's `x || fallback` on optional strings.
 */
module Common {

  /** An optional value: `undefined` in a request or response, SQL NULL in a row. */
  datatype Option<+T> = None | Some(value: T) {

    /** The value, or `default` when absent. */
    function GetOr(default: T): T {
      match this
      case Some(v) => v
      case None => default
    }

    function Map<U>(f: T -> U): Option<U> {
      match this
      case Some(v) => Some(f(v))
      case None => None
    }
  }

  /** The error kinds the handlers raise (Encore's APIError codes), plus a database failure. */
  datatype ApiError =
    | InvalidArgument(message: string)
    | NotFound(message: string)
    | AlreadyExists(message: string)
    | Internal(message: string)
    | StorageFailure(message: string)

  datatype Result<+T> = Ok(value: T) | Err(error: ApiError)

  /**
   * `s || undefined` and `s || null` on an optional string: the empty string
   * is falsy, so it collapses to "absent" together with an absent value.
   */
  function OrAbsent(s: Option<string>): (r: Option<string>)
    ensures r.None? <==> (s.None? || s == Some(""))
    ensures r.Some? ==> r == s
  {
    if s == Some("") then None else s
  }

  /** A parsed JSON document. Serialisation is not modelled: a document stands for its own text. */
  datatype Json =
    | JNull
    | JBool(b: bool)
    | JNum(n: int)
    | JString(s: string)
    | JArray(items: seq<Json>)
    | JObject(members: seq<(string, Json)>)

  /** `JSON.stringify` of a string array, kept structured. */
  function StringArray(xs: seq<string>): Json {
    JArray(seq(|xs|, i requires 0 <= i < |xs| => JString(xs[i])))
  }

  /** Reads a JSON array of strings back; None when some item is not a string. */
  function StringsOf(items: seq<Json>): (r: Option<seq<string>>)
    ensures r.Some? ==> |r.value| == |items|
  {
    if items == [] then Some([])
    else match items[0]
      case JString(s) =>
        (match StringsOf(items[1..])
         case Some(rest) => Some([s] + rest)
         case None => None)
      case _ => None
  }

  function AsStrings(j: Json): Option<seq<string>> {
    if j.JArray? then StringsOf(j.items) else None
  }

  /** A string array read back from its JSON form is the array itself. */
  lemma {:induction false} StringArrayRoundTrip(xs: seq<string>)
    ensures AsStrings(StringArray(xs)) == Some(xs)
  {
    if xs != [] {
      StringArrayRoundTrip(xs[1..]);
      assert StringArray(xs).items[1..] == StringArray(xs[1..]).items;
      assert [xs[0]] + xs[1..] == xs;
    }
  }

  /** The value of the first member named `key` of a JSON object. */
  function Member(members: seq<(string, Json)>, key: string): (r: Option<Json>)
    ensures r.Some? ==> exists i :: 0 <= i < |members| && members[i] == (key, r.value)
    ensures r.None? ==> forall i :: 0 <= i < |members| ==> members[i].0 != key
  {
    if members == [] then None
    else if members[0].0 == key then Some(members[0].1)
    else Member(members[1..], key)
  }
}
