/**
 * The outside world of the crawler, as values: URIs, and an environment that
 * parses URI strings and HTML, and answers page and resource requests from
 * finite maps. HTTP itself is not modelled.
 */
module Web {
  import opened Wrappers
  import opened Html

  newtype byte = x: int | 0 <= x < 256

  /**
   * A parsed absolute `System.Uri`, reduced to the properties the crawler reads:
   * `absoluteUri` is `AbsoluteUri`, `text` is `ToString()`.
   */
  datatype Uri = Uri(
    scheme: string,
    host: string,
    authority: string,
    absolutePath: string,
    query: string,
    absoluteUri: string,
    text: string)

  /** `Uri.PathAndQuery`. */
  function PathAndQuery(u: Uri): string
  {
    u.absolutePath + u.query
  }

  /**
   * The oracles the crawler consults: `parseUri` is `new Uri(string)` (None when it
   * throws UriFormatException), `parseHtml` is HtmlDocument.Load, `pages` and
   * `resources` are the bodies the site serves; every other address fails.
   */
  datatype Env = Env(
    parseUri: string -> Option<Uri>,
    parseHtml: string -> Document,
    pages: map<Uri, string>,
    resources: map<Uri, seq<byte>>)

  /** The text GetPage returns when HttpClient rejects the scheme with an ArgumentException. */
  const Sentinel: string :=
    "System.ArgumentException: 'Only 'http' and 'https' schemes are allowed. (Parameter 'requestUri')"

  /** HttpClient accepts only these two schemes. */
  predicate HttpScheme(u: Uri)
  {
    u.scheme == "http" || u.scheme == "https"
  }

  /** The outcome of one page request. */
  datatype PageFetch = Fetched(body: string) | NetFail | BadScheme

  /** The page oracle: rejected scheme, a served body, or a network failure. */
  function FetchPage(e: Env, address: Uri): PageFetch
  {
    if !HttpScheme(address) then BadScheme
    else if address in e.pages then Fetched(e.pages[address])
    else NetFail
  }

  /**
   * `GetPage`: the served body verbatim; "" on a network failure
   * (AggregateException); the sentinel on a rejected scheme (ArgumentException).
   */
  function GetPage(e: Env, address: Uri): (html: string)
    ensures !HttpScheme(address) ==> html == Sentinel
    ensures HttpScheme(address) && address in e.pages ==> html == e.pages[address]
    ensures HttpScheme(address) && address !in e.pages ==> html == ""
  {
    match FetchPage(e, address)
    case Fetched(body) => body
    case NetFail => ""
    case BadScheme => Sentinel
  }

  /** `GetResourse`: the served stream, or None (null) on a rejected scheme or a network failure. */
  function GetResource(e: Env, address: Uri): (r: Option<seq<byte>>)
    ensures r.Some? <==> HttpScheme(address) && address in e.resources
    ensures r.Some? ==> r.value == e.resources[address]
  {
    if HttpScheme(address) && address in e.resources then Some(e.resources[address]) else None
  }
}
