/** The Pinecone vector-store client without its network calls: the id a stored vector
    gets, the JSON bodies of the upsert and query requests, and how replies become
    results. The reply to each request is an input of the model. */
module Pinecone {
  import opened Wrappers
  import opened Json
  import Hex
  import CollectionUrl

  /** Runtime services used but not modelled: the SHA-256 digest of a string's UTF-8
      bytes, and the formatting of a number as JavaScript's `String(n)` does it. */
  datatype Runtime = Runtime(digest: string -> Hex.Digest, formatNumber: real -> string)

  datatype Error =
    | IncorrectCollection
    | ServiceError(text: string)

  const IncorrectCollectionMessage: string := "Incorrectly formatted Pinecone collection"
  const ServiceErrorPrefix: string := "Pinecone error: "

  /** The message the thrown error carries. */
  function Message(e: Error): (m: string)
    ensures e.IncorrectCollection? ==> IncorrectCollectionMessage <= m
    ensures e.ServiceError? ==> ServiceErrorPrefix <= m && m[|ServiceErrorPrefix|..] == e.text
  {
    match e
    case IncorrectCollection => IncorrectCollectionMessage + ": Invalid URL"
    case ServiceError(text) => ServiceErrorPrefix + text
  }

  /** A POST request: where it goes and its JSON body. Headers are not modelled. */
  datatype Request = Request(url: string, body: Json)

  /** One match of a query reply, with the `data` field of its metadata. */
  datatype Match = Match(id: string, score: real, data: Json)

  /** What the service answered: the status, the body as text, and the parsed
      `matches` of a query reply (read only when the status is 200). */
  datatype Reply = Reply(status: int, text: string, matches: seq<Match>)

  /** A typed value of the graph engine; `kind` is its `type` tag. */
  datatype DataValue = DataValue(kind: string, value: Json)

  /** The first position of `sep` in `s`, or `|s|` when there is none. */
  function IndexOf(s: string, sep: char): (i: nat)
    ensures i <= |s|
    ensures forall j :: 0 <= j < i ==> s[j] != sep
    ensures i < |s| ==> s[i] == sep
  {
    if |s| == 0 then 0 else if s[0] == sep then 0 else 1 + IndexOf(s[1..], sep)
  }

  /** `parts.join(sep)`. */
  function Join(parts: seq<string>, sep: string): (r: string)
    ensures parts == [] ==> r == ""
    ensures |parts| >= 1 ==> parts[0] <= r
  {
    if |parts| == 0 then ""
    else if |parts| == 1 then parts[0]
    else parts[0] + sep + Join(parts[1..], sep)
  }

  /** `s.split(sep)` for a one-character separator. */
  function Split(s: string, sep: char): (r: seq<string>)
    ensures |r| >= 1
    decreases |s|
  {
    var i := IndexOf(s, sep);
    if i == |s| then [s] else [s[..i]] + Split(s[i + 1..], sep)
  }

  /** Joining pieces that do not contain the separator loses nothing: splitting gives them back. */
  lemma {:induction false} SplitJoin(parts: seq<string>, sep: char)
    requires |parts| >= 1
    requires forall p :: p in parts ==> sep !in p
    ensures Split(Join(parts, [sep]), sep) == parts
  {
    var s := Join(parts, [sep]);
    assert parts[0] in parts;
    if |parts| == 1 {
      assert IndexOf(s, sep) == |s|;
    } else {
      var rest := Join(parts[1..], [sep]);
      assert s == parts[0] + [sep] + rest;
      assert s[|parts[0]|] == sep;
      assert forall j :: 0 <= j < |parts[0]| ==> s[j] == parts[0][j];
      assert IndexOf(s, sep) == |parts[0]|;
      assert s[..|parts[0]|] == parts[0];
      assert s[|parts[0]| + 1..] == rest;
      SplitJoin(parts[1..], sep);
      assert [parts[0]] + parts[1..] == parts;
    }
  }

  /** The text hashed for a default id: the vector's components formatted and joined with `,`. */
  function VectorKey(rt: Runtime, values: seq<real>): (r: string)
    ensures values == [] ==> r == ""
    ensures |values| == 1 ==> r == rt.formatNumber(values[0])
    ensures |values| >= 1 && (forall i :: 0 <= i < |values| ==> ',' !in rt.formatNumber(values[i])) ==>
              Split(r, ',') == seq(|values|, i requires 0 <= i < |values| => rt.formatNumber(values[i]))
  {
    var parts := seq(|values|, i requires 0 <= i < |values| => rt.formatNumber(values[i]));
    if |values| >= 1 && (forall p :: p in parts ==> ',' !in p) then
      SplitJoin(parts, ',');
      Join(parts, ",")
    else
      Join(parts, ",")
  }

  /** The id a stored vector gets: the caller's id unless it is missing or empty, and
      otherwise the hex SHA-256 digest of the vector's key. */
  function EffectiveId(rt: Runtime, id: Option<string>, values: seq<real>): (r: string)
    ensures id.Some? && id.value != "" ==> r == id.value
    ensures id.None? || id.value == "" ==>
              |r| == 64 && Hex.IsLowerHex(r) && Hex.Decode(r) == Some(rt.digest(VectorKey(rt, values)))
    ensures r != ""
  {
    if id.None? || id.value == "" then Hex.Sha256Hex(rt.digest, VectorKey(rt, values)) else id.value
  }

  /** The fields of a body with the collection's options spread over them. */
  function WithOptions(fields: map<string, Json>, details: CollectionUrl.CollectionDetails): (r: map<string, Json>)
    requires "namespace" !in fields
    ensures r.Keys == fields.Keys + (if details.namespace.Some? then {"namespace"} else {})
    ensures forall k :: k in fields ==> r[k] == fields[k]
    ensures details.namespace.Some? ==> r["namespace"] == JStr(details.namespace.value)
  {
    match details.namespace
    case None => fields
    case Some(ns) => fields["namespace" := JStr(ns)]
  }

  /** The upsert body: one vector `{id, values, metadata: {data}}`, plus the namespace. */
  function UpsertBody(id: string, values: seq<real>, data: Json, details: CollectionUrl.CollectionDetails): (body: Json)
    ensures ReadUpsert(body) == Some((id, values, data, details.namespace))
  {
    var vector := JObj(map["id" := JStr(id), "values" := JArr(Numbers(values)), "metadata" := JObj(map["data" := data])]);
    var body := JObj(WithOptions(map["vectors" := JArr([vector])], details));
    ReadNumbersOfNumbers(values);
    body
  }

  /** The numbers of a JSON array of numbers. */
  function ReadNumbers(items: seq<Json>): (r: Option<seq<real>>)
    ensures r.Some? ==> |r.value| == |items|
  {
    if |items| == 0 then Some([])
    else match (items[0], ReadNumbers(items[1..]))
      case (JNum(n), Some(rest)) => Some([n] + rest)
      case _ => None
  }

  lemma {:induction false} ReadNumbersOfNumbers(values: seq<real>)
    ensures ReadNumbers(Numbers(values)) == Some(values)
  {
    if |values| > 0 {
      assert Numbers(values)[1..] == Numbers(values[1..]);
      ReadNumbersOfNumbers(values[1..]);
      assert [values[0]] + values[1..] == values;
    }
  }

  /** What the service reads from an upsert body: the single vector's id, values and data,
      and the namespace. Anything else is not an upsert body of this client. */
  function ReadUpsert(body: Json): (r: Option<(string, seq<real>, Json, Option<string>)>)
  {
    if !body.JObj? || "vectors" !in body.fields then None
    else
      var f := body.fields;
      var extra := f.Keys - {"vectors", "namespace"};
      var namespace := if "namespace" in f && f["namespace"].JStr? then Some(f["namespace"].s) else None;
      if extra != {} || !f["vectors"].JArr? || ("namespace" in f && namespace.None?) then None
      else
        var items := f["vectors"].items;
        if |items| != 1 || !items[0].JObj? then None
        else
          var v := items[0].fields;
          if v.Keys != {"id", "values", "metadata"} || !v["id"].JStr? || !v["values"].JArr? || !v["metadata"].JObj?
             || v["metadata"].fields.Keys != {"data"} then None
          else match ReadNumbers(v["values"].items)
            case None => None
            case Some(values) => Some((v["id"].s, values, v["metadata"].fields["data"], namespace))
  }

  /** The query body: the vector, `topK = k`, `includeMetadata = true`, plus the namespace. */
  function QueryBody(values: seq<real>, k: int, details: CollectionUrl.CollectionDetails): (body: Json)
    ensures ReadQuery(body) == Some((values, k, details.namespace))
  {
    ReadNumbersOfNumbers(values);
    JObj(WithOptions(map["vector" := JArr(Numbers(values)), "topK" := JNum(k as real), "includeMetadata" := JBool(true)], details))
  }

  /** What the service reads from a query body; a body that does not ask for metadata, or
      whose `topK` is not a whole number, is not a query body of this client. */
  function ReadQuery(body: Json): (r: Option<(seq<real>, int, Option<string>)>)
  {
    if !body.JObj? then None
    else
      var f := body.fields;
      if f.Keys - {"namespace"} != {"vector", "topK", "includeMetadata"} || !f["vector"].JArr? || !f["topK"].JNum?
         || f["topK"].n != f["topK"].n.Floor as real || f["includeMetadata"] != JBool(true) then None
      else
        var namespace := if "namespace" in f && f["namespace"].JStr? then Some(f["namespace"].s) else None;
        if "namespace" in f && namespace.None? then None
        else match ReadNumbers(f["vector"].items)
          case None => None
          case Some(values) => Some((values, f["topK"].n.Floor, namespace))
  }

  /** The request `store` sends, or the error raised before anything is sent. */
  function UpsertRequest(rt: Runtime, collection: string, values: seq<real>, data: Json, id: Option<string>): (r: Result<Request, Error>)
    ensures r.Err? <==> CollectionUrl.GetCollection(collection).Err?
    ensures r.Err? ==> r.error == IncorrectCollection
    ensures r.Ok? ==> var details := CollectionUrl.GetCollection(collection).value;
              && r.value.url == details.host + "/vectors/upsert"
              && ReadUpsert(r.value.body) == Some((EffectiveId(rt, id, values), values, data, details.namespace))
  {
    match CollectionUrl.GetCollection(collection)
    case Err(_) => Err(IncorrectCollection)
    case Ok(details) =>
      Ok(Request(details.host + "/vectors/upsert", UpsertBody(EffectiveId(rt, id, values), values, data, details)))
  }

  /** The request `nearestNeighbors` sends, or the error raised before anything is sent. */
  function QueryRequest(collection: string, values: seq<real>, k: int): (r: Result<Request, Error>)
    ensures r.Err? <==> CollectionUrl.GetCollection(collection).Err?
    ensures r.Err? ==> r.error == IncorrectCollection
    ensures r.Ok? ==> var details := CollectionUrl.GetCollection(collection).value;
              && r.value.url == details.host + "/query"
              && ReadQuery(r.value.body) == Some((values, k, details.namespace))
  {
    match CollectionUrl.GetCollection(collection)
    case Err(_) => Err(IncorrectCollection)
    case Ok(details) => Ok(Request(details.host + "/query", QueryBody(values, k, details)))
  }

  /** `store`: on success, the request that was accepted; a reply other than 200 is an
      error carrying the reply's text. */
  function Store(rt: Runtime, collection: string, values: seq<real>, data: Json, id: Option<string>, reply: Reply): (r: Result<Request, Error>)
    ensures r.Ok? <==> CollectionUrl.GetCollection(collection).Ok? && reply.status == 200
    ensures CollectionUrl.GetCollection(collection).Err? ==> r == Err(IncorrectCollection)
    ensures r.Ok? ==> UpsertRequest(rt, collection, values, data, id) == Ok(r.value)
    ensures CollectionUrl.GetCollection(collection).Ok? && reply.status != 200 ==> r == Err(ServiceError(reply.text))
  {
    match UpsertRequest(rt, collection, values, data, id)
    case Err(e) => Err(e)
    case Ok(request) => if reply.status != 200 then Err(ServiceError(reply.text)) else Ok(request)
  }

  /** One entry of the result: `{id, data}`, the score dropped. */
  function Entry(m: Match): (e: Json)
    ensures e.JObj? && e.fields.Keys == {"id", "data"}
    ensures e.fields["id"] == JStr(m.id) && e.fields["data"] == m.data
  {
    JObj(map["id" := JStr(m.id), "data" := m.data])
  }

  /** `nearestNeighbors`: an `object[]` value with one entry per match, in match order. */
  function NearestNeighbors(collection: string, values: seq<real>, k: int, reply: Reply): (r: Result<DataValue, Error>)
    ensures r.Ok? <==> CollectionUrl.GetCollection(collection).Ok? && reply.status == 200
    ensures CollectionUrl.GetCollection(collection).Err? ==> r == Err(IncorrectCollection)
    ensures CollectionUrl.GetCollection(collection).Ok? && reply.status != 200 ==> r == Err(ServiceError(reply.text))
    ensures r.Ok? ==> r.value.kind == "object[]" && r.value.value.JArr? && |r.value.value.items| == |reply.matches|
    ensures r.Ok? ==> forall i :: 0 <= i < |reply.matches| ==>
              r.value.value.items[i] == JObj(map["id" := JStr(reply.matches[i].id), "data" := reply.matches[i].data])
  {
    match QueryRequest(collection, values, k)
    case Err(e) => Err(e)
    case Ok(_) =>
      if reply.status != 200 then Err(ServiceError(reply.text))
      else Ok(DataValue("object[]", JArr(seq(|reply.matches|, i requires 0 <= i < |reply.matches| => Entry(reply.matches[i])))))
  }

  /** Scores do not reach the result: replies that differ only in scores give the same value. */
  lemma ScoresDropped(collection: string, values: seq<real>, k: int, a: Reply, b: Reply)
    requires a.status == b.status && |a.matches| == |b.matches|
    requires forall i :: 0 <= i < |a.matches| ==> a.matches[i].id == b.matches[i].id && a.matches[i].data == b.matches[i].data
    ensures a.status == 200 ==> NearestNeighbors(collection, values, k, a) == NearestNeighbors(collection, values, k, b)
  {
    var ea := seq(|a.matches|, i requires 0 <= i < |a.matches| => Entry(a.matches[i]));
    var eb := seq(|b.matches|, i requires 0 <= i < |b.matches| => Entry(b.matches[i]));
    assert ea == eb;
  }
}
