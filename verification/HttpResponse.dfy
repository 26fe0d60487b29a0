/** The parts of a response that the file handlers read and write. */
module HttpResponse {
  import opened Bytes
  import opened SendfileHandoff

  /** A media type: `<top>/<sub>[+<suffix>]`, and its charset parameter when it has one. */
  datatype Mime = Mime(top: string, sub: string, suffix: Option<string>, charset: Option<string>)

  const OCTET_STREAM := Mime("application", "octet-stream", None, None)

  datatype ETag = ETag(weak: bool, tag: string)

  datatype Headers = Headers(
    contentType: Option<Mime>,
    disposition: Option<string>,
    nosniff: bool,
    lastModified: Option<int>,       // seconds since the epoch
    etag: Option<ETag>,
    acceptRanges: bool,
    contentEncoding: Option<string>,
    contentRange: Option<string>,
    contentLength: Option<string>)

  const NO_HEADERS := Headers(None, None, false, None, None, false, None, None, None)

  datatype Body =
    | NoBody
    | Once(bytes: seq<byte>)
    | Chunked(offset: nat, total: nat, bufferSize: nat)
    | ZeroCopy(placeholders: SendfileBody)

  class Response {
    var status: Option<nat>
    var headers: Headers
    var body: Body

    constructor ()
      ensures status == None && headers == NO_HEADERS && body == NoBody
    {
      status, headers, body := None, NO_HEADERS, NoBody;
    }
  }
}
