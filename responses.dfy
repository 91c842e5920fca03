/**
 * The responses the conversion handler writes: the downloadable subtitle file,
 * the 400 help page, and the error page with its status code.
 */
module Responses {
  import opened Common

  /** What the error page reports as its cause. */
  datatype Cause =
    | TooFrequent           // the rate limiter denied the call
    | AuthenticationFailed  // the cookie verifier refused the caller
    | DomainRestriction     // the input URL is outside the allowed origins
    | FetchError            // downloading the input failed
    | SubmitError           // handing the job to the worker pool raised
    | ConversionError       // the conversion itself raised

  datatype Body =
    | Page(template: string, cause: Option<Cause>)  // a rendered template
    | Artifact(bytes: seq<byte>)                    // the subtitle file

  datatype Response = Response(status: int, headers: map<string, string>, body: Body)

  /**
   * The status codes the web framework has a reason phrase for; setting any
   * other code raises.
   */
  type StatusTable = int -> bool

  const HtmlType: string := "text/html; charset=utf-8"
  const FileType: string := "application/octet-stream"
  const CacheControl: string := "public, max-age=60"
  const DispositionPrefix: string := "attachment; filename=\""

  /** The UTF-8 encoding of the byte-order mark. */
  const Bom: seq<byte> := [0xEF, 0xBB, 0xBF]

  /**
   * The error page for `status`, on top of the headers already set. When the
   * framework refuses the status, the fallback status 500 is set instead.
   */
  function ErrorPage(status: int, cause: Cause, headers: map<string, string>, known: StatusTable): (r: Response)
    ensures known(status) ==> r.status == status
    ensures !known(status) ==> r.status == 500
    ensures r.headers.Keys == headers.Keys + {"Content-Type"} && r.headers["Content-Type"] == HtmlType
    ensures forall h :: h in headers && h != "Content-Type" ==> r.headers[h] == headers[h]
    ensures r.body == Page("error.html", Some(cause))
  {
    var code := if known(status) then status else 500;
    Response(code, headers["Content-Type" := HtmlType], Page("error.html", Some(cause)))
  }

  /** The reply to invalid arguments: status 400 and the help page. */
  function BadRequest(): (r: Response)
    ensures r.status == 400 && r.headers == map["Content-Type" := HtmlType]
    ensures r.body == Page("specification.html", None)
  {
    Response(400, map["Content-Type" := HtmlType], Page("specification.html", None))
  }

  /** The attachment disposition header for `filename`; reading it back gives `filename`. */
  function Disposition(filename: string): (r: string)
    ensures AttachmentName(r) == Some(filename)
  {
    DispositionPrefix + filename + "\""
  }

  /** The file name an attachment disposition header carries, if it is one. */
  function AttachmentName(header: string): Option<string> {
    if |header| > |DispositionPrefix| && header[..|DispositionPrefix|] == DispositionPrefix
       && header[|header| - 1] == '"'
    then Some(header[|DispositionPrefix|..|header| - 1])
    else None
  }

  /** The body with its byte-order mark removed, if it starts with one. */
  function StripBom(body: seq<byte>): Option<seq<byte>> {
    if |body| >= |Bom| && body[..|Bom|] == Bom then Some(body[|Bom|..]) else None
  }

  /**
   * The completed download: the converted text (`output`, already encoded)
   * behind a byte-order mark, offered as an attachment named `filename` and
   * cacheable for a minute; `expires` is the formatted expiry time.
   */
  function Delivered(output: seq<byte>, filename: string, expires: string): (r: Response)
    ensures r.status == 200
    ensures r.headers.Keys == {"Content-Type", "Content-Disposition", "Cache-Control", "Expires"}
    ensures r.headers["Content-Type"] == FileType && r.headers["Cache-Control"] == CacheControl
    ensures r.headers["Expires"] == expires
    ensures AttachmentName(r.headers["Content-Disposition"]) == Some(filename)
    ensures r.body.Artifact? && StripBom(r.body.bytes) == Some(output)
  {
    assert (Bom + output)[..|Bom|] == Bom && (Bom + output)[|Bom|..] == output;
    Response(200,
             map["Content-Type" := FileType,
                 "Content-Disposition" := Disposition(filename),
                 "Cache-Control" := CacheControl,
                 "Expires" := expires],
             Artifact(Bom + output))
  }
}
