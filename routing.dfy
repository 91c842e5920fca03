/**
 * Where the input of a conversion comes from. A `file:///` URL names a local
 * file, read without any download; any other URL is downloaded only when it
 * begins with one of three fixed origins, and is refused before any HTTP
 * client exists otherwise.
 */
module Routing {
  import opened Common

  const LocalScheme: string := "file:///"

  /** The origins a remote input may be downloaded from. */
  const AllowedOrigins: seq<string> :=
    ["http://comment.bilibili.tv/", "http://comment.bilibili.cn/", "http://www.bilidown.tv/"]

  datatype Route =
    | Local(path: string)   // read the file at `path` directly
    | Remote(url: string)   // download `url`
    | Forbidden             // the domain restriction refuses `url`

  function Classify(url: string): (r: Route)
    ensures r.Local? <==> StartsWith(url, LocalScheme)
    ensures r.Local? ==> "file://" + r.path == url && StartsWith(r.path, "/")
    ensures r.Remote? <==> !StartsWith(url, LocalScheme) && exists o :: o in AllowedOrigins && StartsWith(url, o)
    ensures r.Remote? ==> r.url == url
  {
    if StartsWith(url, LocalScheme) then Local(url[7..])
    else if !StartsWith(url, AllowedOrigins[0]) && !StartsWith(url, AllowedOrigins[1])
         && !StartsWith(url, AllowedOrigins[2]) then Forbidden
    else Remote(url)
  }

  /** Every absolute path comes back unchanged from its `file://` URL. */
  lemma LocalPathRoundTrip(path: string)
    requires StartsWith(path, "/")
    ensures Classify("file://" + path) == Local(path)
  {
  }

  /** A URL that differs from a prefix at some position inside it does not start with it. */
  lemma NotPrefixAt(url: string, prefix: string, k: nat)
    requires k < |prefix| && k < |url| && url[k] != prefix[k]
    ensures !StartsWith(url, prefix)
  {
  }

  /**
   * Only the plain scheme is allowed: every `https://` URL is refused, and so
   * is every `file://` URL that names a host instead of an absolute path.
   */
  lemma RefusedLookalikes(url: string)
    ensures StartsWith(url, "https://") ==> Classify(url) == Forbidden
    ensures StartsWith(url, "file://") && !StartsWith(url, LocalScheme) ==> Classify(url) == Forbidden
  {
    if StartsWith(url, "https://") {
      assert url[0] == 'h' && url[4] == 's';
      NotPrefixAt(url, LocalScheme, 0);
      NotPrefixAt(url, AllowedOrigins[0], 4);
      NotPrefixAt(url, AllowedOrigins[1], 4);
      NotPrefixAt(url, AllowedOrigins[2], 4);
    } else if StartsWith(url, "file://") {
      assert url[0] == 'f';
      NotPrefixAt(url, AllowedOrigins[0], 0);
      NotPrefixAt(url, AllowedOrigins[1], 0);
      NotPrefixAt(url, AllowedOrigins[2], 0);
    }
  }
}
