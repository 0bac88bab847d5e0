/**
  The parts of SwiftNIO's HTTP/1 vocabulary the handler uses: methods, versions,
  the ordered header list `HTTPHeaders` with its case-insensitive lookup, and
  the request and response parts that travel through the channel pipeline.
*/
module Http {
  import opened Wrappers
  import opened Utf8

  /** `HTTPMethod`: named cases plus `RAW` for any other token. */
  datatype HttpMethod =
    | GET | PUT | HEAD | POST | DELETE | OPTIONS | PATCH | TRACE | CONNECT
    | RAW(value: string)

  /**
    The text `"\(method)"` gives: the case name, or for `RAW` the reflected form
    `RAW(value: "...")`.
  */
  function MethodText(m: HttpMethod): (t: string)
    ensures !m.RAW? ==> 3 <= |t| <= 7 && forall i :: 0 <= i < |t| ==> 'A' <= t[i] <= 'Z'
    ensures m.RAW? ==> |t| == |m.value| + 14 && t[..12] == "RAW(value: \"" && t[12..|t| - 2] == m.value
    ensures m.RAW? ==> t[|t| - 2..] == "\")"
  {
    match m
    case GET => "GET"
    case PUT => "PUT"
    case HEAD => "HEAD"
    case POST => "POST"
    case DELETE => "DELETE"
    case OPTIONS => "OPTIONS"
    case PATCH => "PATCH"
    case TRACE => "TRACE"
    case CONNECT => "CONNECT"
    case RAW(v) => "RAW(value: \"" + v + "\")"
  }

  /** Different methods are reported with different texts. */
  lemma MethodTextInjective(m: HttpMethod, n: HttpMethod)
    ensures MethodText(m) == MethodText(n) ==> m == n
  {
    if m.RAW? && n.RAW? && MethodText(m) == MethodText(n) {
      var t := MethodText(m);
      assert m.value == t[12..|t| - 2];
      assert n.value == t[12..|t| - 2];
    }
  }

  datatype HttpVersion = HttpVersion(major: nat, minor: nat)

  /** `HTTPHeaders`: (name, value) pairs in arrival order; names may repeat. */
  type Headers = seq<(string, string)>

  /** ASCII lower-casing; every other character is left alone. */
  function LowerAscii(c: char): char {
    if 'A' <= c <= 'Z' then (c as int + 32) as char else c
  }

  /** Header names compare equal ignoring ASCII case. */
  predicate NameMatches(a: string, b: string) {
    |a| == |b| && forall i :: 0 <= i < |a| ==> LowerAscii(a[i]) == LowerAscii(b[i])
  }

  /** No header name in `h` matches `name`. */
  predicate NoMatch(h: Headers, name: string) {
    forall j :: 0 <= j < |h| ==> !NameMatches(h[j].0, name)
  }

  /** `h[i]` is the earliest header whose name matches `name`. */
  predicate EarliestMatch(h: Headers, name: string, i: int) {
    0 <= i < |h| && NameMatches(h[i].0, name) && forall j :: 0 <= j < i ==> !NameMatches(h[j].0, name)
  }

  /** `headers[name]`: the values of every header whose name matches, in order. */
  function Values(h: Headers, name: string): (vs: seq<string>)
    ensures |vs| <= |h|
    ensures forall v :: v in vs ==> exists j :: 0 <= j < |h| && NameMatches(h[j].0, name) && h[j].1 == v
    ensures forall j :: 0 <= j < |h| && NameMatches(h[j].0, name) ==> h[j].1 in vs
  {
    if h == [] then []
    else (if NameMatches(h[0].0, name) then [h[0].1] else []) + Values(h[1..], name)
  }

  /** `headers[name].first` */
  function FirstValue(h: Headers, name: string): (r: Option<string>)
    ensures r.None? <==> NoMatch(h, name)
    ensures r.Some? ==> exists i :: EarliestMatch(h, name, i) && r.value == h[i].1
  {
    var vs := Values(h, name);
    if vs == [] then None else ValuesFirstIsEarliest(h, name); Some(vs[0])
  }

  /** The first value a lookup finds is that of the earliest header whose name matches. */
  lemma {:induction false} ValuesFirstIsEarliest(h: Headers, name: string)
    requires Values(h, name) != []
    ensures exists i :: EarliestMatch(h, name, i) && Values(h, name)[0] == h[i].1
  {
    if !NameMatches(h[0].0, name) {
      ValuesFirstIsEarliest(h[1..], name);
      var i :| EarliestMatch(h[1..], name, i) && Values(h[1..], name)[0] == h[1..][i].1;
      assert EarliestMatch(h, name, i + 1);
    } else {
      assert EarliestMatch(h, name, 0);
    }
  }

  /** Looking up a concatenation looks up each part in turn. */
  lemma {:induction false} ValuesAppend(a: Headers, b: Headers, name: string)
    ensures Values(a + b, name) == Values(a, name) + Values(b, name)
  {
    if a != [] {
      assert (a + b)[0] == a[0];
      assert (a + b)[1..] == a[1..] + b;
      ValuesAppend(a[1..], b, name);
    } else {
      assert a + b == b;
    }
  }

  /** The first value is that of the earliest header whose name matches. */
  lemma {:induction false} FirstValueOfEarliestMatch(h: Headers, name: string, i: nat)
    requires i < |h| && NameMatches(h[i].0, name)
    requires forall j :: 0 <= j < i ==> !NameMatches(h[j].0, name)
    ensures FirstValue(h, name) == Some(h[i].1)
  {
    if i > 0 {
      assert !NameMatches(h[0].0, name);
      assert forall j :: 0 <= j < i - 1 ==> h[1..][j] == h[j + 1];
      FirstValueOfEarliestMatch(h[1..], name, i - 1);
    }
  }

  /** There is no value exactly when no header name matches. */
  lemma {:induction false} FirstValueAbsent(h: Headers, name: string)
    ensures FirstValue(h, name).None? <==> forall j :: 0 <= j < |h| ==> !NameMatches(h[j].0, name)
  {
    if h != [] {
      FirstValueAbsent(h[1..], name);
      assert forall j :: 1 <= j < |h| ==> h[1..][j - 1] == h[j];
    }
  }

  datatype HttpRequestHead = HttpRequestHead(
    version: HttpVersion,
    httpMethod: HttpMethod,
    uri: string,
    headers: Headers)

  datatype HttpResponseStatus = HttpResponseStatus(code: nat, reasonPhrase: string)

  /** `HTTPResponseStatus.ok` */
  const OK := HttpResponseStatus(200, "OK")

  datatype HttpResponseHead = HttpResponseHead(
    version: HttpVersion,
    status: HttpResponseStatus,
    headers: Headers)

  /** `HTTPServerRequestPart`: what the HTTP decoder hands the handler. */
  datatype RequestPart =
    | Head(head: HttpRequestHead)
    | Body(bytes: seq<byte>)
    | End(trailers: Option<Headers>)

  /** `HTTPServerResponsePart`: what the handler writes back. */
  datatype ResponsePart =
    | ResponseHead(head: HttpResponseHead)
    | ResponseBody(bytes: seq<byte>)
    | ResponseEnd(trailers: Option<Headers>)
}
