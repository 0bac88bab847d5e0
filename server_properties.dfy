/**
  What the handler of server.swift guarantees: the invariant its three optional
  fields keep, how body chunks accumulate, when the echoed record gets a body,
  the framing and CORS headers of the response, and that a request's response
  does not depend on what the connection carried before it.
*/
module ServerProperties {
  import opened Wrappers
  import opened Utf8
  import opened Numerals
  import opened Http
  import opened Server

  /**
    The fields are set together by a head and never cleared, and the record
    always describes the head that created it.
  */
  predicate Consistent(st: HandlerState) {
    || (st.requestHead.None? && st.requestData.None? && st.requestBodyBuffer.None?)
    || (&& st.requestHead.Some? && st.requestData.Some? && st.requestBodyBuffer.Some?
        && DistinctNames(st.requestHead.value.headers)
        && st.requestData.value.path == st.requestHead.value.uri
        && st.requestData.value.headers == HeaderDictionary(st.requestHead.value.headers)
        && st.requestData.value.verb == MethodText(st.requestHead.value.httpMethod))
  }

  lemma StepKeepsConsistent(c: Codecs, st: HandlerState, part: RequestPart, remoteAddress: Option<string>)
    requires Consistent(st) && CanRead(st, part)
    ensures Consistent(Step(c, st, part, remoteAddress))
  {
  }

  /** Every state a connection reaches from a consistent state is consistent. */
  lemma {:induction false} RunKeepsConsistent(c: Codecs, st: HandlerState, parts: seq<RequestPart>, remoteAddress: Option<string>)
    requires Consistent(st)
    ensures Run(c, st, parts, remoteAddress).Some? ==> Consistent(Run(c, st, parts, remoteAddress).value)
    decreases |parts|
  {
    if parts != [] && CanRead(st, parts[0]) {
      StepKeepsConsistent(c, st, parts[0], remoteAddress);
      RunKeepsConsistent(c, Step(c, st, parts[0], remoteAddress), parts[1..], remoteAddress);
    }
  }

  function BodyParts(chunks: seq<seq<byte>>): (parts: seq<RequestPart>)
    ensures |parts| == |chunks|
  {
    if chunks == [] then [] else [Body(chunks[0])] + BodyParts(chunks[1..])
  }

  function Concat(chunks: seq<seq<byte>>): seq<byte> {
    if chunks == [] then [] else chunks[0] + Concat(chunks[1..])
  }

  /** Running two sequences of parts one after the other is running their concatenation. */
  lemma {:induction false} RunAppend(c: Codecs, st: HandlerState, a: seq<RequestPart>, b: seq<RequestPart>, remoteAddress: Option<string>)
    ensures Run(c, st, a + b, remoteAddress) ==
      match Run(c, st, a, remoteAddress)
      case None => None
      case Some(s) => Run(c, s, b, remoteAddress)
    decreases |a|
  {
    if a == [] {
      assert a + b == b;
    } else {
      assert (a + b)[0] == a[0];
      assert (a + b)[1..] == a[1..] + b;
      if CanRead(st, a[0]) {
        RunAppend(c, Step(c, st, a[0], remoteAddress), a[1..], b, remoteAddress);
      }
    }
  }

  /**
    Once a buffer exists, body chunks are appended to it in arrival order and
    nothing else changes.
  */
  lemma {:induction false} BodiesAccumulate(c: Codecs, st: HandlerState, chunks: seq<seq<byte>>, remoteAddress: Option<string>)
    requires st.requestBodyBuffer.Some?
    ensures Run(c, st, BodyParts(chunks), remoteAddress) ==
      Some(st.(requestBodyBuffer := Some(st.requestBodyBuffer.value + Concat(chunks))))
    decreases |chunks|
  {
    if chunks == [] {
      assert st.requestBodyBuffer.value + [] == st.requestBodyBuffer.value;
    } else {
      var next := st.(requestBodyBuffer := Some(st.requestBodyBuffer.value + chunks[0]));
      RunFirstChunk(c, st, chunks, remoteAddress);
      BodiesAccumulate(c, next, chunks[1..], remoteAddress);
      assert Concat(chunks) == chunks[0] + Concat(chunks[1..]);
      assert st.requestBodyBuffer.value + chunks[0] + Concat(chunks[1..])
          == st.requestBodyBuffer.value + Concat(chunks);
      assert next.(requestBodyBuffer := Some(next.requestBodyBuffer.value + Concat(chunks[1..])))
          == st.(requestBodyBuffer := Some(st.requestBodyBuffer.value + Concat(chunks)));
    }
  }

  /** With a buffer, the first of several body chunks is appended to it. */
  lemma RunFirstChunk(c: Codecs, st: HandlerState, chunks: seq<seq<byte>>, remoteAddress: Option<string>)
    requires st.requestBodyBuffer.Some? && chunks != []
    ensures Run(c, st, BodyParts(chunks), remoteAddress) ==
      Run(c, st.(requestBodyBuffer := Some(st.requestBodyBuffer.value + chunks[0])), BodyParts(chunks[1..]), remoteAddress)
  {
    var parts := BodyParts(chunks);
    assert parts[0] == Body(chunks[0]) && parts[1..] == BodyParts(chunks[1..]);
    assert Step(c, st, Body(chunks[0]), remoteAddress) == st.(requestBodyBuffer := Some(st.requestBodyBuffer.value + chunks[0]));
  }

  /** Before any head there is no buffer, and body chunks are ignored. */
  lemma {:induction false} BodyBeforeHeadIgnored(c: Codecs, st: HandlerState, chunks: seq<seq<byte>>, remoteAddress: Option<string>)
    requires st.requestBodyBuffer.None?
    ensures Run(c, st, BodyParts(chunks), remoteAddress) == Some(st)
    decreases |chunks|
  {
    if chunks != [] {
      assert BodyParts(chunks)[1..] == BodyParts(chunks[1..]);
      BodyBeforeHeadIgnored(c, st, chunks[1..], remoteAddress);
    }
  }

  /** An end marker with no head before it traps (`requestHead!`). */
  lemma EndBeforeHeadTraps(c: Codecs, st: HandlerState, trailers: Option<Headers>, rest: seq<RequestPart>, remoteAddress: Option<string>)
    requires st.requestHead.None?
    ensures Run(c, st, [End(trailers)] + rest, remoteAddress).None?
  {
    assert ([End(trailers)] + rest)[0] == End(trailers);
  }

  /**
    At the end marker the record gets a body exactly when at least one body byte
    arrived; its other fields stay, and the response is appended to the output.
  */
  lemma EndAttachesBodyIffBytes(c: Codecs, st: HandlerState, trailers: Option<Headers>, remoteAddress: Option<string>)
    requires WellBehaved(c) && Consistent(st) && st.requestHead.Some?
    requires st.requestData.value.body.None?
    ensures var next := Step(c, st, End(trailers), remoteAddress);
      && next.requestData.Some?
      && (next.requestData.value.body.Some? <==> st.requestBodyBuffer.value != [])
      && (next.requestData.value.body.Some? ==>
            next.requestData.value.body.value == c.readString(st.requestBodyBuffer.value))
      && next.requestData.value == st.requestData.value.(body := next.requestData.value.body)
      && next.requestHead == st.requestHead && next.requestBodyBuffer == st.requestBodyBuffer
      && next.written == st.written + Response(c, st.requestHead.value, next.requestData)
  {
  }

  /**
    One whole request (a head, body chunks, an end marker) leaves the record the
    head describes with the chunks' text as body, and writes that record's response
    after whatever the connection had written before.
  */
  lemma {:induction false} CompleteExchange(c: Codecs, st: HandlerState, h: HttpRequestHead, chunks: seq<seq<byte>>,
                                            trailers: Option<Headers>, remoteAddress: Option<string>)
    requires DistinctNames(h.headers)
    ensures var info := ReceiveHead(h, remoteAddress).(body := BufferToString(c, Some(Concat(chunks))));
      Run(c, st, [Head(h)] + BodyParts(chunks) + [End(trailers)], remoteAddress) ==
        Some(HandlerState(Some(h), Some(info), Some(Concat(chunks)), st.written + Response(c, h, Some(info))))
  {
    var afterHead := Step(c, st, Head(h), remoteAddress);
    assert Run(c, st, [Head(h)], remoteAddress) == Some(afterHead);
    BodiesAccumulate(c, afterHead, chunks, remoteAddress);
    assert [] + Concat(chunks) == Concat(chunks);
    var afterBodies := afterHead.(requestBodyBuffer := Some(Concat(chunks)));
    RunAppend(c, st, [Head(h)], BodyParts(chunks), remoteAddress);
    RunAppend(c, st, [Head(h)] + BodyParts(chunks), [End(trailers)], remoteAddress);
    assert Run(c, afterBodies, [End(trailers)], remoteAddress) == Some(Step(c, afterBodies, End(trailers), remoteAddress));
  }

  /** With a well-behaved decoder, the echoed body is present exactly when some byte arrived. */
  lemma CompleteExchangeBody(c: Codecs, st: HandlerState, h: HttpRequestHead, chunks: seq<seq<byte>>,
                             trailers: Option<Headers>, remoteAddress: Option<string>)
    requires WellBehaved(c) && DistinctNames(h.headers)
    ensures var final := Run(c, st, [Head(h)] + BodyParts(chunks) + [End(trailers)], remoteAddress);
      && final.Some? && final.value.requestData.Some?
      && (final.value.requestData.value.body.Some? <==> exists i :: 0 <= i < |chunks| && chunks[i] != [])
  {
    CompleteExchange(c, st, h, chunks, trailers, remoteAddress);
    ConcatEmpty(chunks);
  }

  lemma {:induction false} ConcatEmpty(chunks: seq<seq<byte>>)
    ensures Concat(chunks) == [] <==> forall i :: 0 <= i < |chunks| ==> chunks[i] == []
  {
    if chunks != [] {
      ConcatEmpty(chunks[1..]);
      assert forall i :: 1 <= i < |chunks| ==> chunks[i] == chunks[1..][i - 1];
    }
  }

  /** Output written earlier is kept in front and does not influence later handling. */
  lemma {:induction false} RunAfterEarlierOutput(c: Codecs, st: HandlerState, w: seq<ResponsePart>,
                                                 parts: seq<RequestPart>, remoteAddress: Option<string>)
    ensures Run(c, st.(written := w + st.written), parts, remoteAddress) ==
      match Run(c, st, parts, remoteAddress)
      case None => None
      case Some(s) => Some(s.(written := w + s.written))
    decreases |parts|
  {
    if parts == [] {
    } else if CanRead(st, parts[0]) {
      var next := Step(c, st, parts[0], remoteAddress);
      StepAfterEarlierOutput(c, st, w, parts[0], remoteAddress);
      RunAfterEarlierOutput(c, next, w, parts[1..], remoteAddress);
    }
  }

  /** One part is handled the same whatever was written before it. */
  lemma StepAfterEarlierOutput(c: Codecs, st: HandlerState, w: seq<ResponsePart>, part: RequestPart, remoteAddress: Option<string>)
    requires CanRead(st, part)
    ensures CanRead(st.(written := w + st.written), part)
    ensures Step(c, st.(written := w + st.written), part, remoteAddress) ==
      Step(c, st, part, remoteAddress).(written := w + Step(c, st, part, remoteAddress).written)
  {
    if part.End? {
      var data := AttachBody(st.requestData, BufferToString(c, st.requestBodyBuffer));
      var out := Response(c, st.requestHead.value, data);
      assert (w + st.written) + out == w + (st.written + out);
    }
  }

  /**
    A request that starts with a head is answered the same on a connection that
    served earlier requests as on a fresh one: the same parts are appended.
  */
  lemma RepeatedRequestSameResponse(c: Codecs, st: HandlerState, parts: seq<RequestPart>, remoteAddress: Option<string>)
    requires |parts| > 0 && parts[0].Head?
    ensures Run(c, st, parts, remoteAddress) ==
      match Run(c, Initial, parts, remoteAddress)
      case None => None
      case Some(s) => Some(s.(written := st.written + s.written))
  {
    if CanRead(st, parts[0]) {
      var started := Step(c, Initial, parts[0], remoteAddress);
      assert Step(c, st, parts[0], remoteAddress) == started.(written := st.written + started.written);
      RunAfterEarlierOutput(c, started, st.written, parts[1..], remoteAddress);
    }
  }

  /**
    The response is exactly a head with status 200 and the request's version,
    followed by a body; no end part is written.
  */
  lemma ResponseShape(c: Codecs, request: HttpRequestHead, info: Option<RequestInfo>)
    ensures var parts := Response(c, request, info);
      && |parts| == 2
      && parts[0].ResponseHead? && parts[0].head.status == OK && parts[0].head.status.code == 200
      && parts[0].head.version == request.version
      && parts[1].ResponseBody?
      && parts[0].head.headers[..3] == FramingHeaders(PrintRequestInfo(c, info).1)
      && parts[1].bytes == Encode(PrintRequestInfo(c, info).0)
  {
  }

  /** The framing headers come first, so `Content-Length` is found there whatever follows. */
  lemma ContentLengthLookup(responseLength: int, rest: Headers)
    ensures FirstValue(FramingHeaders(responseLength) + rest, "Content-Length") == Some(IntText(responseLength))
  {
    var hs := FramingHeaders(responseLength) + rest;
    FirstValueOfEarliestMatch(hs, "Content-Length", 2);
  }

  /** `access-control-allow-origin` is found exactly when an origin is reflected, with that origin. */
  lemma AllowOriginLookup(responseLength: int, origin: Option<string>)
    ensures FirstValue(FramingHeaders(responseLength) + CorsHeaders(origin), "access-control-allow-origin") == origin
  {
    var hs := FramingHeaders(responseLength) + CorsHeaders(origin);
    var name := "access-control-allow-origin";
    if origin.Some? {
      FirstValueOfEarliestMatch(hs, name, 3);
    } else {
      FirstValueAbsent(hs, name);
    }
  }

  /** On the success path `Content-Length` is the byte count of the body written. */
  lemma ContentLengthMatchesBody(c: Codecs, request: HttpRequestHead, info: Option<RequestInfo>)
    requires WellBehaved(c) && Encodable(c, info)
    ensures var parts := Response(c, request, info);
      && FirstValue(parts[0].head.headers, "Content-Length") == Some(IntText(|parts[1].bytes|))
      && (IsInt64(|parts[1].bytes|) ==> ParseInt(IntText(|parts[1].bytes|)) == Some(|parts[1].bytes|))
      && |parts[1].bytes| == |c.encodeJson(info.value).value|
  {
    var rendered := PrintRequestInfo(c, info);
    ContentLengthLookup(rendered.1, CorsHeaders(RequestOrigin(Some(request.headers))));
    if IsInt64(rendered.1) {
      ParseIntText(rendered.1);
    }
  }

  /**
    On the fallback path the response declares `Content-Length: 0` while it writes
    the five bytes of "Empty".
  */
  lemma FallbackDeclaresZeroBytes(c: Codecs, request: HttpRequestHead, info: Option<RequestInfo>)
    requires !Encodable(c, info)
    ensures var parts := Response(c, request, info);
      && FirstValue(parts[0].head.headers, "Content-Length") == Some("0")
      && parts[1].bytes == [69, 109, 112, 116, 121]
  {
    ContentLengthLookup(0, CorsHeaders(RequestOrigin(Some(request.headers))));
    FallbackBytes();
  }

  /** The placeholder `Empty` is written as its five ASCII codes. */
  lemma FallbackBytes()
    ensures Encode(FallbackText) == [69, 109, 112, 116, 121]
  {
    EncodeAscii(FallbackText);
  }

  /**
    The CORS headers: `access-control-allow-origin` reflects the first request
    `origin` value, and the four CORS headers follow the framing headers exactly
    when the request has an origin; otherwise nothing follows them.
  */
  lemma CorsReflectsOrigin(c: Codecs, request: HttpRequestHead, info: Option<RequestInfo>)
    ensures var headers := Response(c, request, info)[0].head.headers;
      var origin := FirstValue(request.headers, "origin");
      && FirstValue(headers, "access-control-allow-origin") == origin
      && (origin.None? <==> |headers| == 3)
      && (origin.Some? ==>
            && |headers| == 7
            && headers[3..] ==
                 [ ("access-control-allow-origin", origin.value),
                   ("access-control-allow-headers", "accept, authorization, content-type, origin, x-requested-with"),
                   ("access-control-allow-methods", "GET, POST, PUT, OPTIONS, DELETE, PATCH"),
                   ("access-control-max-age", "600") ])
  {
    AllowOriginLookup(PrintRequestInfo(c, info).1, FirstValue(request.headers, "origin"));
  }
}
