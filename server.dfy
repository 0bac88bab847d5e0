/**
  The echo handler of server.swift: `RequestInfo`, the helpers `bufferToString`,
  `addHeaders` and `printRequestInfo`, and the per-connection `RequestHandler`
  whose `channelRead` assembles a request from head, body and end parts and
  answers it with a 200 response that echoes the request as JSON.
*/
module Server {
  import opened Wrappers
  import opened Utf8
  import opened Numerals
  import opened Http

  /** The record the server echoes; `verb` is the Swift field `method`. */
  datatype RequestInfo = RequestInfo(
    path: string,
    headers: map<string, string>,
    body: Option<string>,
    origin: Option<string>,
    verb: string)

  /**
    Library code the handler calls but whose workings are outside this model:
    - readString: `ByteBuffer.getString` over all readable bytes (lossy UTF-8 decoding);
    - stringFromData: Foundation's `String(data:encoding: .utf8)`, which may fail;
    - encodeJson: `try? JSONEncoder().encode(_:)` with pretty printing, which may fail.
  */
  datatype Codecs = Codecs(
    readString: seq<byte> -> string,
    stringFromData: seq<byte> -> Option<string>,
    encodeJson: RequestInfo -> Option<seq<byte>>)

  /**
    What the model assumes of those libraries: lossy decoding yields no text
    exactly for no bytes, and when the JSON rendering of a record decodes
    strictly, UTF-8 encoding the text gives back the rendering's bytes.
  */
  ghost predicate WellBehaved(c: Codecs) {
    && (forall b :: c.readString(b) == [] <==> b == [])
    && (forall i :: c.encodeJson(i).Some? && c.stringFromData(c.encodeJson(i).value).Some? ==>
          Encode(c.stringFromData(c.encodeJson(i).value).value) == c.encodeJson(i).value)
  }

  /** `Dictionary(uniqueKeysWithValues:)` traps on a repeated name. */
  predicate DistinctNames(h: Headers) {
    forall i, j :: 0 <= i < j < |h| ==> h[i].0 != h[j].0
  }

  function NameSet(h: Headers): set<string> {
    set i | 0 <= i < |h| :: h[i].0
  }

  /** The dictionary built from the request's header list: each name maps to its value. */
  function HeaderDictionary(h: Headers): (d: map<string, string>)
    requires DistinctNames(h)
    ensures d.Keys == NameSet(h)
    ensures forall i :: 0 <= i < |h| ==> d[h[i].0] == h[i].1
  {
    if h == [] then map[]
    else
      var init := h[..|h| - 1];
      assert forall i :: 0 <= i < |init| ==> init[i] == h[i];
      HeaderDictionary(init)[h[|h| - 1].0 := h[|h| - 1].1]
  }

  /** The record built at `.head`: nothing of the body is known yet. */
  function ReceiveHead(h: HttpRequestHead, remoteAddress: Option<string>): (info: RequestInfo)
    requires DistinctNames(h.headers)
    ensures info.path == h.uri && info.body.None?
    ensures info.origin == remoteAddress && info.verb == MethodText(h.httpMethod)
    ensures info.headers.Keys == NameSet(h.headers)
    ensures forall i :: 0 <= i < |h.headers| ==> info.headers[h.headers[i].0] == h.headers[i].1
  {
    RequestInfo(h.uri, HeaderDictionary(h.headers), None, remoteAddress, MethodText(h.httpMethod))
  }

  /** `bufferToString`: the buffer's text, or `None` for no buffer or an empty text. */
  function BufferToString(c: Codecs, buffer: Option<seq<byte>>): (r: Option<string>)
    ensures r.Some? <==> buffer.Some? && c.readString(buffer.value) != []
    ensures r.Some? ==> r.value == c.readString(buffer.value)
    ensures WellBehaved(c) ==> (r.Some? <==> buffer.Some? && buffer.value != [])
  {
    match buffer
    case None => None
    case Some(buf) =>
      var text := c.readString(buf);
      if |text| > 0 then Some(text) else None
  }

  const FallbackText: string := "Empty"

  /** The JSON rendering of `info` exists and is valid UTF-8. */
  predicate Encodable(c: Codecs, info: Option<RequestInfo>) {
    && info.Some?
    && c.encodeJson(info.value).Some?
    && c.stringFromData(c.encodeJson(info.value).value).Some?
  }

  /**
    `printRequestInfo`: the JSON text and its length in bytes, or `("Empty", 0)`
    when there is no record or it cannot be rendered.
  */
  function PrintRequestInfo(c: Codecs, info: Option<RequestInfo>): (r: (string, int))
    ensures !Encodable(c, info) ==> r == (FallbackText, 0)
    ensures Encodable(c, info) ==>
      var data := c.encodeJson(info.value).value;
      c.stringFromData(data) == Some(r.0) && r.1 == |data|
    ensures WellBehaved(c) && Encodable(c, info) ==> r.1 == |Encode(r.0)|
    ensures WellBehaved(c) ==> (r == (FallbackText, 0) <==> !Encodable(c, info))
  {
    if info.None? then (FallbackText, 0)
    else
      match c.encodeJson(info.value)
      case None => (FallbackText, 0)
      case Some(data) =>
        match c.stringFromData(data)
        case None => (FallbackText, 0)
        case Some(text) => (text, |data|)
  }

  /** `reqHeaders?["origin"].first` */
  function RequestOrigin(reqHeaders: Option<Headers>): (r: Option<string>)
    ensures reqHeaders.None? ==> r.None?
    ensures reqHeaders.Some? ==> (r.None? <==> NoMatch(reqHeaders.value, "origin"))
    ensures reqHeaders.Some? && r.Some? ==>
      exists i :: EarliestMatch(reqHeaders.value, "origin", i) && r.value == reqHeaders.value[i].1
  {
    if reqHeaders.None? then None else FirstValue(reqHeaders.value, "origin")
  }

  /** The three headers every response carries. */
  function FramingHeaders(responseLength: int): Headers {
    [ ("Server", "server.swift"),
      ("content-type", "application/json; charset=utf-8"),
      ("Content-Length", IntText(responseLength)) ]
  }

  const AllowedHeaders: string := "accept, authorization, content-type, origin, x-requested-with"
  const AllowedMethods: string := "GET, POST, PUT, OPTIONS, DELETE, PATCH"

  /** The CORS policy: reflect any origin, with fixed companions; nothing without one. */
  function CorsHeaders(origin: Option<string>): Headers {
    match origin
    case None => []
    case Some(o) =>
      [ ("access-control-allow-origin", o),
        ("access-control-allow-headers", AllowedHeaders),
        ("access-control-allow-methods", AllowedMethods),
        ("access-control-max-age", "600") ]
  }

  /** `addHeaders(headers: &headers, ...)`: the list with the response headers appended. */
  method AddHeaders(headers: Headers, reqHeaders: Option<Headers>, responseLength: int)
    returns (result: Headers)
    ensures result == headers + FramingHeaders(responseLength) + CorsHeaders(RequestOrigin(reqHeaders))
  {
    result := headers;
    result := result + [("Server", "server.swift")];
    result := result + [("content-type", "application/json; charset=utf-8")];
    result := result + [("Content-Length", IntText(responseLength))];
    var origin := RequestOrigin(reqHeaders);
    if origin.Some? {
      result := result + [("access-control-allow-origin", origin.value)];
      result := result + [("access-control-allow-headers", AllowedHeaders)];
      result := result + [("access-control-allow-methods", AllowedMethods)];
      result := result + [("access-control-max-age", "600")];
    }
  }

  /** The handler's fields, and the parts written to the channel so far. */
  datatype HandlerState = HandlerState(
    requestHead: Option<HttpRequestHead>,
    requestData: Option<RequestInfo>,
    requestBodyBuffer: Option<seq<byte>>,
    written: seq<ResponsePart>)

  const Initial := HandlerState(None, None, None, [])

  /**
    A part the handler can take without trapping: a head whose header names are
    distinct, any body, and an end only once a head has arrived.
  */
  predicate CanRead(st: HandlerState, part: RequestPart) {
    match part
    case Head(h) => DistinctNames(h.headers)
    case Body(_) => true
    case End(_) => st.requestHead.Some?
  }

  /** `requestData?.body = bufferString` when there is a text. */
  function AttachBody(data: Option<RequestInfo>, bufferString: Option<string>): (r: Option<RequestInfo>)
    ensures r.Some? <==> data.Some?
    ensures r.Some? ==> r.value.(body := data.value.body) == data.value
    ensures r.Some? ==> r.value.body == if bufferString.Some? then bufferString else data.value.body
  {
    if bufferString.Some? && data.Some? then Some(data.value.(body := bufferString)) else data
  }

  /** The two parts written at `.end`: the response head, then the body bytes. */
  function Response(c: Codecs, request: HttpRequestHead, info: Option<RequestInfo>): (parts: seq<ResponsePart>)
    ensures |parts| == 2 && parts[0].ResponseHead? && parts[1].ResponseBody?
    ensures parts[0].head.status == OK && parts[0].head.version == request.version
    ensures parts[1].bytes == Encode(PrintRequestInfo(c, info).0)
  {
    var responseBody := PrintRequestInfo(c, info);
    var headers := FramingHeaders(responseBody.1) + CorsHeaders(RequestOrigin(Some(request.headers)));
    [ ResponseHead(HttpResponseHead(request.version, OK, headers)),
      ResponseBody(Encode(responseBody.0)) ]
  }

  /** One `channelRead` as a function of the handler's state. */
  function Step(c: Codecs, st: HandlerState, part: RequestPart, remoteAddress: Option<string>): (next: HandlerState)
    requires CanRead(st, part)
    ensures part.Head? ==> next.requestHead == Some(part.head) && next.requestBodyBuffer == Some([])
    ensures part.Head? ==> next.requestData == Some(ReceiveHead(part.head, remoteAddress))
    ensures part.End? ==> next.requestData == AttachBody(st.requestData, BufferToString(c, st.requestBodyBuffer))
    ensures part.End? ==> next.requestBodyBuffer == st.requestBodyBuffer
    ensures !part.Head? ==> next.requestHead == st.requestHead
    ensures part.End? ==> next.written == st.written + Response(c, st.requestHead.value, next.requestData)
    ensures !part.End? ==> next.written == st.written
    ensures part.Body? ==> next.requestData == st.requestData
    ensures part.Body? && st.requestBodyBuffer.Some? ==> next.requestBodyBuffer == Some(st.requestBodyBuffer.value + part.bytes)
    ensures part.Body? && st.requestBodyBuffer.None? ==> next == st
  {
    match part
    case Head(h) =>
      st.(requestHead := Some(h),
          requestData := Some(ReceiveHead(h, remoteAddress)),
          requestBodyBuffer := Some([]))
    case Body(chunk) =>
      if st.requestBodyBuffer.Some? then st.(requestBodyBuffer := Some(st.requestBodyBuffer.value + chunk))
      else st
    case End(_) =>
      var data := AttachBody(st.requestData, BufferToString(c, st.requestBodyBuffer));
      st.(requestData := data, written := st.written + Response(c, st.requestHead.value, data))
  }

  /** A sequence of parts on one connection; `None` when a part would trap. */
  function Run(c: Codecs, st: HandlerState, parts: seq<RequestPart>, remoteAddress: Option<string>): (r: Option<HandlerState>)
    ensures r.Some? ==> st.written <= r.value.written
    ensures r.Some? && |parts| > 0 ==> CanRead(st, parts[0])
    decreases |parts|
  {
    if parts == [] then Some(st)
    else if !CanRead(st, parts[0]) then None
    else Run(c, Step(c, st, parts[0], remoteAddress), parts[1..], remoteAddress)
  }

  /**
    `Server.RequestHandler`: one instance per connection. `written` stands for
    the parts handed to `context.channel.write`.
  */
  class RequestHandler {
    const codecs: Codecs
    var requestHead: Option<HttpRequestHead>
    var requestData: Option<RequestInfo>
    var requestBodyBuffer: Option<seq<byte>>
    var written: seq<ResponsePart>

    function State(): HandlerState
      reads this
    {
      HandlerState(requestHead, requestData, requestBodyBuffer, written)
    }

    constructor (codecs: Codecs)
      ensures this.codecs == codecs
      ensures State() == Initial
    {
      this.codecs := codecs;
      requestHead, requestData, requestBodyBuffer, written := None, None, None, [];
    }

    method ChannelRead(part: RequestPart, remoteAddress: Option<string>)
      requires CanRead(State(), part)
      modifies this
      ensures State() == Step(codecs, old(State()), part, remoteAddress)
    {
      match part
      case Head(head) =>
        requestHead := Some(head);
        var headers := HeaderDictionary(head.headers);
        var path := head.uri;
        var origin := remoteAddress;
        var verb := MethodText(head.httpMethod);
        requestData := Some(RequestInfo(path, headers, None, origin, verb));
        requestBodyBuffer := Some([]);
      case Body(bodyBuffer) =>
        if requestBodyBuffer.Some? {
          requestBodyBuffer := Some(requestBodyBuffer.value + bodyBuffer);
        }
      case End(_) =>
        ReceiveEnd();
    }

    /** The `.end` case of `channelRead`: attach the body, then write the response head and body. */
    method ReceiveEnd()
      requires requestHead.Some?
      modifies this
      ensures requestHead == old(requestHead) && requestBodyBuffer == old(requestBodyBuffer)
      ensures requestData == AttachBody(old(requestData), BufferToString(codecs, old(requestBodyBuffer)))
      ensures written == old(written) + Response(codecs, old(requestHead).value, requestData)
    {
      var bufferString := BufferToString(codecs, requestBodyBuffer);
      var data := requestData;
      if bufferString.Some? && data.Some? {
        data := Some(data.value.(body := bufferString));
        requestData := data;
      }
      var request := requestHead.value;
      var responseBody := PrintRequestInfo(codecs, data);
      var headers := AddHeaders([], Some(request.headers), responseBody.1);
      var head := HttpResponseHead(request.version, OK, headers);
      written := written + [ResponseHead(head)];
      var buffer := Encode(responseBody.0);
      written := written + [ResponseBody(buffer)];
      assert [] + FramingHeaders(responseBody.1) == FramingHeaders(responseBody.1);
      assert written == old(written) + [ResponseHead(head), ResponseBody(buffer)];
    }
  }
}
