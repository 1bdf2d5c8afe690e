/**
 * The S3 streamer built by `s3streamer` (index.js:93-110).
 *
 * Every upload it starts writes the part's length and content type into one
 * header map that all its uploads share, hands the part to the S3 client's
 * `putStream`, and turns the client's answer into an error or a success for
 * the relay.
 */
module S3 {
  import opened Common

  const AclHeader: string := "x-amz-acl"
  const ContentLength: string := "Content-Length"
  const ContentType: string := "Content-Type"

  /** A header value: a string, a number, or JavaScript undefined (a part of unknown length). */
  datatype HeaderValue = Text(s: string) | Number(n: int) | Undefined

  type Headers = map<string, HeaderValue>

  /** The header map used when the options give none: the uploaded object is publicly readable. */
  function DefaultHeaders(): (h: Headers)
    ensures h.Keys == {AclHeader} && h[AclHeader] == Text("public-read")
  {
    map[AclHeader := Text("public-read")]
  }

  /** The Content-Length value for a part: its byte count, or undefined when the decoder does not know it. */
  function LengthOf(part: Part): HeaderValue
  {
    if part.byteCount.Some? then Number(part.byteCount.value) else Undefined
  }

  /**
   * The shared header map after one upload has started: Content-Length and
   * Content-Type describe this part, every other entry is as it was.
   */
  function WithPartHeaders(h: Headers, part: Part): (r: Headers)
    ensures r.Keys == h.Keys + {ContentLength, ContentType}
    ensures r[ContentLength] == LengthOf(part) && r[ContentType] == Text(part.contentType)
    ensures forall k :: k in h && k != ContentLength && k != ContentType ==> r[k] == h[k]
  {
    h[ContentLength := LengthOf(part)][ContentType := Text(part.contentType)]
  }

  /** The shared header map after uploads of `parts`, in order, have started. */
  function HeadersAfter(h: Headers, parts: seq<Part>): Headers
    decreases |parts|
  {
    if parts == [] then h else WithPartHeaders(HeadersAfter(h, parts[..|parts| - 1]), parts[|parts| - 1])
  }

  /**
   * However many uploads share the map, entries other than the two the
   * streamer writes keep their values (the default's 'x-amz-acl' among them),
   * and after at least one upload the two entries describe the latest part.
   */
  lemma {:induction false} SharedHeadersKeepOthers(h: Headers, parts: seq<Part>)
    ensures forall k :: k != ContentLength && k != ContentType ==>
              (k in HeadersAfter(h, parts) <==> k in h)
    ensures forall k :: k in h && k != ContentLength && k != ContentType ==> HeadersAfter(h, parts)[k] == h[k]
    ensures parts != [] ==>
              HeadersAfter(h, parts)[ContentLength] == LengthOf(parts[|parts| - 1]) &&
              HeadersAfter(h, parts)[ContentType] == Text(parts[|parts| - 1].contentType)
    decreases |parts|
  {
    if parts != [] {
      SharedHeadersKeepOthers(h, parts[..|parts| - 1]);
    }
  }

  /** What the S3 client's `putStream` reports: a client error, or a response with a status code. */
  datatype PutResult = PutFailed(err: Error) | Responded(statusCode: int)

  predicate Successful(statusCode: int)
  {
    200 <= statusCode <= 299
  }

  /**
   * The streamer's verdict on an upload, handed to the relay's callback:
   * a client error passes through unchanged, a response outside 200-299 is
   * an error naming its status, any other response is a success (None).
   */
  function Completion(res: PutResult): (r: Option<Error>)
    ensures res.PutFailed? ==> r == Some(res.err)
    ensures res.Responded? ==> (r.None? <==> Successful(res.statusCode))
    ensures res.Responded? && r.Some? ==> r.value == S3Status(res.statusCode)
  {
    match res
    case PutFailed(err) => Some(err)
    case Responded(code) =>
      if code < 200 || code > 299 then Some(S3Status(code)) else None
  }

  /** The arguments of one `s3.putStream` call: the part, its destination key and the headers at that moment. */
  datatype PutRequest = PutRequest(part: Part, key: string, headers: Headers)

  /** The streamer closure returned by `s3streamer`, with the header map its calls share. */
  class S3Streamer {
    var headers: Headers
    var puts: seq<PutRequest>

    /** `configured` is the `headers` option; without one the default map is used. */
    constructor (configured: Option<Headers>)
      ensures headers == (if configured.Some? then configured.value else DefaultHeaders())
      ensures puts == []
    {
      headers := if configured.Some? then configured.value else DefaultHeaders();
      puts := [];
    }

    /** Starts the upload of `part` under `key`. */
    method Stream(part: Part, key: string)
      modifies this
      ensures headers == WithPartHeaders(old(headers), part)
      ensures puts == old(puts) + [PutRequest(part, key, headers)]
    {
      headers := headers[ContentLength := LengthOf(part)];
      headers := headers[ContentType := Text(part.contentType)];
      puts := puts + [PutRequest(part, key, headers)];
    }
  }
}
