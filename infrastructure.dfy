/**
  `HackerNewsClient`: how an upstream HTTP exchange becomes a result. The
  transport and the JSON deserialiser are not modelled; their outcomes are
  the inputs here.
 */
module Infrastructure {
  import opened Wrappers
  import opened Models
  import opened Decimal

  /** What the deserialiser makes of a success body. */
  datatype Json<+T> =
    | Parsed(value: T)   // a well-formed document of the expected shape
    | JsonNull           // the document `null`
    | Malformed          // JsonException

  /** The outcome of one `GetAsync`, after the resilience pipeline has run. */
  datatype HttpResult<+T> =
    | Response(status: int, body: Json<T>)
    | TransportError     // HttpRequestException (an open circuit is not modelled)

  const NotFound := 404

  predicate IsSuccessStatusCode(status: int) {
    200 <= status <= 299
  }

  const BestStoriesPath := "beststories.json"

  function ItemPath(id: int32): string {
    "item/" + IntToDecimal(id as int) + ".json"
  }

  /**
    `GetBestStoryIdsAsync`: a failed status gives the empty list without reading
    the body; a `null` document gives the empty list; otherwise the parsed list.
   */
  function GetBestStoryIds(resp: HttpResult<seq<int32>>): (r: Result<seq<int32>, Fault>)
    ensures resp.TransportError? <==> r == Err(HttpFailure)
    ensures resp.Response? && !IsSuccessStatusCode(resp.status) ==> r == Ok([])
    ensures resp.Response? && IsSuccessStatusCode(resp.status) ==>
      r == match resp.body
           case Parsed(ids) => Ok(ids)
           case JsonNull => Ok([])
           case Malformed => Err(MalformedJson)
    ensures r.Ok? && r.value != [] ==> resp.Response? && resp.body == Parsed(r.value)
  {
    match resp
    case TransportError => Err(HttpFailure)
    case Response(status, body) =>
      if !IsSuccessStatusCode(status) then Ok([])
      else
        match body
        case Parsed(ids) => Ok(ids)
        case JsonNull => Ok([])
        case Malformed => Err(MalformedJson)
  }

  /**
    `GetStoryAsync`: 404 and every other failed status give null; a success
    gives what the body deserialises to, itself possibly null.
   */
  function GetStory(resp: HttpResult<Story>): (r: Result<Option<Story>, Fault>)
    ensures resp.TransportError? <==> r == Err(HttpFailure)
    ensures resp.Response? && resp.status == NotFound ==> r == Ok(None)
    ensures resp.Response? && !IsSuccessStatusCode(resp.status) ==> r == Ok(None)
    ensures r.Ok? && r.value.Some? ==>
      resp.Response? && IsSuccessStatusCode(resp.status) && resp.body == Parsed(r.value.value)
    ensures resp.Response? && IsSuccessStatusCode(resp.status) && resp.body.Parsed? ==>
      r == Ok(Some(resp.body.value))
    ensures r == Err(MalformedJson) <==>
      resp.Response? && IsSuccessStatusCode(resp.status) && resp.body.Malformed?
  {
    match resp
    case TransportError => Err(HttpFailure)
    case Response(status, body) =>
      if status == NotFound then Ok(None)
      else if !IsSuccessStatusCode(status) then Ok(None)
      else
        match body
        case Parsed(s) => Ok(Some(s))
        case JsonNull => Ok(None)
        case Malformed => Err(MalformedJson)
  }

  /** Each item has its own request path, distinct from the list's. */
  lemma {:induction false} ItemPathsDistinct(a: int32, b: int32)
    ensures ItemPath(a) != BestStoriesPath
    ensures ItemPath(a) == ItemPath(b) <==> a == b
  {
    assert ItemPath(a)[0] == 'i' != BestStoriesPath[0];
    if ItemPath(a) == ItemPath(b) {
      var da, db := IntToDecimal(a as int), IntToDecimal(b as int);
      assert |da| == |db|;
      assert da == ItemPath(a)[5..5 + |da|];
      assert db == ItemPath(b)[5..5 + |db|];
      IntToDecimalInjective(a as int, b as int);
    }
  }
}
