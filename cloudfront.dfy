/**
 * The CloudFront viewer-request function in front of the static export: a
 * directory URI is mapped to the `index.html` inside it, so that the S3 origin
 * can serve `/blog/` and `/blog` as `/blog/index.html`.
 */
module CloudFrontFunction {
  import opened Strings

  const IndexDocument := "index.html"
  const SlashIndexDocument := "/index.html"

  /** The request object the function receives and hands back. */
  class Request {
    var uri: string

    constructor (uri: string)
      ensures this.uri == uri
    {
      this.uri := uri;
    }
  }

  /** A URI the origin can serve as it is: it names a file (it holds a dot)
      and is not a directory (it does not end with a slash). */
  predicate NamesFile(uri: string) {
    '.' in uri && !EndsWith(uri, "/")
  }

  /** The URI after the function: a trailing slash gets `index.html`, a URI
      without a dot gets `/index.html`, anything else is left alone. */
  function RewriteUri(uri: string): (r: string)
    ensures NamesFile(r)
    ensures r == uri <==> NamesFile(uri)
    ensures EndsWith(uri, "/") ==> r == uri + IndexDocument
    ensures !EndsWith(uri, "/") && '.' !in uri ==> r == uri + SlashIndexDocument
    ensures |uri| <= |r| && r[..|uri|] == uri
  {
    if EndsWith(uri, "/") then
      assert (uri + IndexDocument)[|uri| + 5] == '.';
      assert (uri + IndexDocument)[|uri| + 9] == 'l';
      uri + IndexDocument
    else if '.' !in uri then
      assert (uri + SlashIndexDocument)[|uri| + 6] == '.';
      assert (uri + SlashIndexDocument)[|uri| + 10] == 'l';
      uri + SlashIndexDocument
    else uri
  }

  /** Running the function twice changes nothing the first run did not. */
  lemma RewriteIdempotent(uri: string)
    ensures RewriteUri(RewriteUri(uri)) == RewriteUri(uri)
  {
  }

  /** `handler(event)`: rewrites `request.uri` in place and returns the same request. */
  method Handler(request: Request) returns (r: Request)
    modifies request
    ensures r == request
    ensures request.uri == RewriteUri(old(request.uri))
  {
    var uri := request.uri;
    if EndsWith(uri, "/") {
      request.uri := request.uri + IndexDocument;
    } else if '.' !in uri {
      request.uri := request.uri + SlashIndexDocument;
    }
    r := request;
  }
}
