# server.swift echo handler, modelled in Dafny

server.swift is a diagnostic HTTP server built on SwiftNIO. For every request it
records the method, the request target, the headers, the peer's address and the
body, and answers with status 200 and a pretty-printed JSON rendering of that
record. The response carries `Server`, `content-type` and `Content-Length`
headers, plus four CORS headers whenever the request has an `origin` header.
The server's hostname and port come from the `--hostname` and `--port`
command-line arguments.

This project models the deterministic core of that file:

- `Server.RequestHandler` is a class with the same three optional fields as the
  Swift handler (`requestHead`, `requestData`, `requestBodyBuffer`). It also has
  a `written` log that stands for `context.channel.write`. `ChannelRead`
  consumes `.head`, `.body` and `.end` parts. It is proved against
  `Server.Step`, a function from the old state to the new state. `Server.Run`
  folds `Step` over a sequence of parts and returns `None` as soon as a part
  would trap.
- `BufferToString`, `AddHeaders` and `PrintRequestInfo` correspond to the
  helpers of the same names. `HeaderDictionary` is the header dictionary built
  at `.head`.
- `Arguments.ParseArguments` is the top-level loop over `CommandLine.arguments`.
- These are supporting modules:
  - `Http` has NIO's methods, versions, `HTTPHeaders` with its case-insensitive
    lookup, and the request and response parts.
  - `Numerals` has Swift's `"\(n)"` and `Int(String)` for 64-bit `Int`.
  - `Utf8` has the UTF-8 encoding that `ByteBuffer.writeString` performs.
  - `Wrappers` has `Option`.

Three library routines are not modelled inside. They are fields of the `Codecs`
value the handler is created with:

- `readString` is `ByteBuffer.getString`, a lossy UTF-8 decoding.
- `stringFromData` is `String(data:encoding: .utf8)`.
- `encodeJson` is `try? JSONEncoder().encode`.

`Server.WellBehaved` states the two facts the proofs assume about them:

- lossy decoding yields an empty text exactly for an empty byte sequence;
- when the JSON rendering of a record decodes strictly, UTF-8 encoding that
  text gives back the rendering's bytes. The assumption covers only the bytes
  `encodeJson` returns, not arbitrary input such as a leading byte-order mark.

What the code does, and the model with it:

- The `"Empty"` fallback declares `Content-Length: 0` but writes five bytes
  (`ServerProperties.FallbackDeclaresZeroBytes`).
- Repeated header names (exact, case-sensitive match) trap in
  `Dictionary(uniqueKeysWithValues:)`. The handler does not keep the last
  value; the model requires distinct names at `.head`.
- The fields are not reset at `.end`. A later `.body` grows the buffer, and a
  later `.end` sets the record's body from it again and answers again.
- An `.end` before any `.head` traps on `requestHead!`. The model requires a
  head before an end.
- The handler writes a response head and a body, but never an end part.
- The lemmas about several requests on one connection
  (`RunAfterEarlierOutput`, `RepeatedRequestSameResponse`) describe the
  handler in isolation. `configureHTTPServerPipeline` (server.swift:16) also
  installs NIO's pipelining helper, which holds back the next request until the
  response's end part is written. Since this handler never writes one, a
  second request on a connection would not reach `channelRead` at all.

## Model

| member | source | states |
|---|---|---|
| `Server.RequestHandler.constructor` | server.swift:33-37 | A new handler has no head, no record, no buffer, and has written nothing. |
| `Server.RequestHandler.ChannelRead` | server.swift:39-71 | Each part changes the handler's fields and output exactly as `Step` prescribes. `.head` needs distinct header names and `.end` needs a previous head. |
| `Server.RequestHandler.ReceiveEnd` | server.swift:54-70 | The `.end` case: head and buffer stay. The record gains the buffer's text as its body, and the response for that record is appended to the output. |
| `Server.HeaderDictionary` | server.swift:45-46 | The dictionary's keys are exactly the request's header names, and each name maps to its own value. |
| `Server.ReceiveHead` | server.swift:43-51 | The record made at `.head` has the head's URI as its path, the header dictionary, no body, the remote address as origin and the method's text. |
| `Server.BufferToString` | server.swift:85-93 | The result is the buffer's decoded text when there is a buffer and its text is non-empty, and `None` otherwise. With a well-behaved decoder, it is present exactly when the buffer holds at least one byte. |
| `Server.PrintRequestInfo` | server.swift:111-123 | With no record, a failed encoding or data that is not UTF-8, the result is `("Empty", 0)`. Otherwise it is the decoded text and the data's byte count. With well-behaved codecs, the fallback pair arises only in those cases, and the byte count equals the UTF-8 length of the text. |
| `Server.AddHeaders` | server.swift:95-109 | The result is the given headers, then `Server`, `content-type` and `Content-Length` (the decimal length), then the four CORS headers only when the request has an `origin`. |
| `Server.Step` | server.swift:39-71 | `.head` stores the head, the record `ReceiveHead` builds from it and the remote address, and an empty buffer. `.body` appends to an existing buffer, or changes nothing when there is none. `.end` keeps the buffer, sets the record to `AttachBody` of the buffer's text, and appends the response for that record to the output. The head is kept by every other part, and only `.end` writes. |
| `Server.Run` | server.swift:39-71 | A run that does not trap only extends the output and, when non-empty, starts with a part the handler can take. |
| `Server.Response` | server.swift:59-69 | The response is two parts: a head with status 200 and the request's version, then a body holding the UTF-8 bytes of the rendered text. |
| `Server.AttachBody` | server.swift:55-56 | A record exists afterwards exactly when it existed before. Only its body can change, and it becomes the buffer's text when there is one. |
| `Server.RequestOrigin` | server.swift:101 | The origin is absent without request headers. Otherwise it is absent exactly when no header is named `origin` (ignoring ASCII case), and when present it is the value of the earliest such header. |
| `ServerProperties.StepKeepsConsistent` | server.swift:43-57 | Every part keeps the invariant: the three fields are all absent or all present, and the record's path, headers and method are those of the stored head. |
| `ServerProperties.RunKeepsConsistent` | server.swift:39-71 | Every state reached by a run of parts from a consistent state is consistent. |
| `ServerProperties.BodiesAccumulate` | server.swift:51-53 | After a head, body chunks leave the buffer equal to the concatenation of the chunks in arrival order, and nothing else changes. |
| `ServerProperties.RunFirstChunk` | server.swift:51-53 | With a buffer, the first of several body chunks is appended to it before the rest are handled. |
| `ServerProperties.BodyBeforeHeadIgnored` | server.swift:52-53 | Without a buffer, that is before any head, body chunks change nothing. |
| `ServerProperties.EndBeforeHeadTraps` | server.swift:62 | An end marker with no head before it traps. |
| `ServerProperties.EndAttachesBodyIffBytes` | server.swift:54-57 | At `.end` the record gains a body exactly when the buffer is non-empty, and the body is the buffer's text. Path, headers, origin and method are unchanged, and the response is appended to the output. |
| `ServerProperties.CompleteExchange` | server.swift:43-70 | Head, chunks, end: the final record is the head's record with the chunks' text as body, and the output grows by exactly that record's response. |
| `ServerProperties.CompleteExchangeBody` | server.swift:54-57 | With a well-behaved decoder, a whole request's echoed body is present exactly when some chunk was non-empty. |
| `ServerProperties.StepAfterEarlierOutput` | server.swift:39-71 | A single part is handled the same whatever was written before it; earlier output stays in front. |
| `ServerProperties.RunAfterEarlierOutput` | server.swift:59-70 | Output already written is kept in front and does not influence how later parts are handled. |
| `ServerProperties.RepeatedRequestSameResponse` | server.swift:43-70 | A request that starts with a head gets the same response parts on a used connection as on a fresh one. |
| `ServerProperties.ResponseShape` | server.swift:59-69 | The response is exactly two parts: a head with status 200, the request's version and the framing headers first, then a body holding the UTF-8 bytes of the rendered text. No end part is written. |
| `ServerProperties.ContentLengthLookup` | server.swift:98-100 | Whatever follows the framing headers, a lookup of `Content-Length` finds the decimal length. |
| `ServerProperties.AllowOriginLookup` | server.swift:101-102 | A lookup of `access-control-allow-origin` in the response headers finds exactly the reflected origin. |
| `ServerProperties.ContentLengthMatchesBody` | server.swift:59-69 | On the success path, `Content-Length` is the decimal byte count of the body written, which reads back as that number. |
| `ServerProperties.FallbackDeclaresZeroBytes` | server.swift:112-119 | On the fallback path, `Content-Length` is `0` while the body written is the five bytes of `Empty`. |
| `ServerProperties.FallbackBytes` | server.swift:112 | The placeholder `Empty` is written as the five bytes 69, 109, 112, 116, 121. |
| `ServerProperties.CorsReflectsOrigin` | server.swift:101-108 | `access-control-allow-origin` echoes the first request `origin` value. The four CORS headers, with their fixed values, are present exactly when an origin exists; otherwise only the three framing headers are sent. |
| `Http.MethodTextInjective` | server.swift:49 | Different methods give different method texts. |
| `Http.MethodText` | server.swift:49 | A named method's text is three to seven upper-case letters, which differs from every other method's text (`MethodTextInjective`). `RAW(v)` gives `RAW(value: "`, then exactly `v`, then `")`. |
| `Http.Values` | server.swift:101 | A lookup returns the value of every header whose name matches ignoring ASCII case, and no other value. It returns at most one value per header. |
| `Http.ValuesFirstIsEarliest` | server.swift:101 | The first value a lookup returns belongs to the earliest header whose name matches. |
| `Http.FirstValue` | server.swift:101 | `.first` is absent exactly when no header name matches ignoring ASCII case. When present, it is the value of the earliest matching header. |
| `Http.ValuesAppend` | server.swift:101 | A case-insensitive lookup over concatenated header lists returns the values of the first list, then those of the second. |
| `Http.FirstValueOfEarliestMatch` | server.swift:101 | `headers[name].first` is the value of the earliest header whose name matches, ignoring ASCII case. |
| `Http.FirstValueAbsent` | server.swift:101 | `headers[name].first` is absent exactly when no header name matches. |
| `Numerals.NatText` | server.swift:100 | A number's decimal text is a non-empty run of digits with no leading zero. |
| `Numerals.ParseInt` | server.swift:156 | `Int(text)` succeeds exactly when the text is an optional `+` or `-` followed by one or more digits and its value is a 64-bit integer. The value is then the digits' value, negated after `-`. |
| `Numerals.LeadingZeroIgnored` | server.swift:156 | Prefixing a run of digits with `0` leaves its value unchanged. |
| `Numerals.ParseIntLeadingZero` | server.swift:156 | `Int("0" + d)` equals `Int(d)` for every run of digits `d`. |
| `Numerals.ParseIntPlusSign` | server.swift:156 | `Int("+" + d)` equals `Int(d)` for every run of digits `d`. |
| `Numerals.PortTextsWithPrefix` | server.swift:155-156 | `--port 08080` and `--port +8080` both give port 8080. |
| `Numerals.IntText` | server.swift:100 | `"\(n)"` is in canonical form: an integer text with no `+`, with a `-` exactly when `n` is negative, and with no leading zero. |
| `Numerals.ParseIntText` | server.swift:100 | The decimal text of every 64-bit integer reads back as that integer. |
| `Numerals.IntTextInjective` | server.swift:100 | Distinct 64-bit integers have distinct decimal texts. |
| `Utf8.Encode` | server.swift:67 | `writeString` produces between one and four bytes per character. |
| `Utf8.EncodedLengthIsCharacterCount` | server.swift:123 | The byte count equals the character count exactly when every character is ASCII. |
| `Utf8.EncodeAscii` | server.swift:112 | An ASCII text such as `Empty` is written one byte per character, each byte the character's code. |
| `Arguments.LastIndexOf` | server.swift:150-152 | The result is the position of the last occurrence of a flag, and `None` exactly when the flag does not occur. |
| `Arguments.ParseArguments` | server.swift:146-160 | The loop's hostname and port are those set by the last `--hostname` and the last `--port`, or the defaults. |
| `Arguments.DefaultsWithoutFlags` | server.swift:146-147 | Without the flags, the hostname is `0.0.0.0` and the port is 8000. |
| `Arguments.LastHostnameWins` | server.swift:153-154 | The last `--hostname` followed by a value sets the hostname to that value. |
| `Arguments.LastPortWins` | server.swift:155-156 | The last `--port` followed by a value sets the port to `Int(value)`, or to 8000 when the value is not an integer. |
| `Arguments.TrailingFlagResets` | server.swift:154-156 | A final `--hostname` gives `0.0.0.0` and a final `--port` gives 8000. |
| `Arguments.OtherArgumentIgnored` | server.swift:157-158 | An argument that is neither flag, and does not follow one, changes neither value. |

## Left out

- Server bootstrap, event-loop group, socket options, bind/wait and the `fatalError` on failure (server.swift:8-31): I/O and threading. The bound port is not checked for range.
- The `print` logging (server.swift:25, 78, 121-122): output only.
- `channelReadComplete` and `errorCaught` (server.swift:73-80): nested local functions that nothing calls.
- NIO's pipelining helper, which `configureHTTPServerPipeline` installs (server.swift:16): library code not part of this model; the handler is modelled on its own.
- `context.flush()`, write promises and the capacity hints of buffer allocation: a write is an append to `written`.
- The internals of `JSONEncoder`, of Foundation's strict UTF-8 decoding and of NIO's lossy `getString`: these are the `Codecs` fields. No field order of the JSON document is asserted.
- RepeatedRequestSameResponse: holds only up to the key order of the JSON. The model takes `encodeJson` to be a function of the record, so equal records render to equal bytes. The code does not guarantee that: the encoder is used without `.sortedKeys` (server.swift:113-115), and a `[String: String]` dictionary's iteration order is seeded per process and per instance. Two equal records can therefore be rendered with their header keys in different orders.
- `ByteBuffer.getString` cannot fail here, because it reads exactly the readable bytes. The model therefore gives it a total type, and the `guard` on its result in `bufferToString` has no failing branch.
- Swift compares `String`s by canonical equivalence and counts grapheme clusters. The model compares and counts Unicode scalar values. The two agree on whether a text is empty and on ASCII flags and header names.
- `Http.HttpMethod` lists only nine of NIO's named methods. The others (such as `PROPFIND` or `MKCALENDAR`, up to eleven letters) are not part of this model, and the three-to-seven-letter bound of `MethodText` covers only the nine. The text of `RAW(value:)` is modelled without Swift's escaping of quotes and backslashes inside the value.
- The request's `HTTPVersion` fields are `UInt16` in NIO and plain naturals here. Their widths play no part in the handler.
- Malformed request heads and transport errors are handled by NIO's HTTP decoder and error handler, which are not part of this model. The handler only ever sees well-formed parts.
