/**
 * The two navigation stages of the spider: `parse` turns the home page's
 * type-icon links into requests for type pages, and `parse_type_page`
 * turns a type page's creature-name links into requests for creature
 * pages.
 *
 * The generator's stream of requests is a returned sequence. URL
 * resolution is a parameter `urljoin`, assumed only to return: it
 * stands for `response.urljoin` (which resolves against the document's
 * base, the `<base href>` when the page has one, and the page URL
 * otherwise) followed by the escaping `scrapy.Request` applies to the
 * result. The `base` argument the model passes it is the page URL.
 */
module Navigation {

  /** The callback a request is tagged with. */
  datatype Handler = ParseTypePageHandler | ParsePokemonPageHandler

  datatype Request = Request(url: string, callback: Handler)

  /**
   * A fetched page as the navigation stages see it: its URL and the two
   * link selections, `a.type-icon::attr(href)` and
   * `div.infocard a.ent-name::attr(href)`, in document order.
   */
  datatype Response = Response(url: string, typeIconHrefs: seq<string>, entityNameHrefs: seq<string>)

  /** One request per link, in link order, each resolved against the page URL and sent to `callback`. */
  function FollowLinks(base: string, hrefs: seq<string>, urljoin: (string, string) -> string, callback: Handler): (rs: seq<Request>)
    ensures |rs| == |hrefs|
    ensures forall i :: 0 <= i < |hrefs| ==> rs[i] == Request(urljoin(base, hrefs[i]), callback)
  {
    if hrefs == [] then []
    else [Request(urljoin(base, hrefs[0]), callback)] + FollowLinks(base, hrefs[1..], urljoin, callback)
  }

  /** `parse`: the home page's type links become requests for `parse_type_page`. */
  function Parse(response: Response, urljoin: (string, string) -> string): (rs: seq<Request>)
    ensures |rs| == |response.typeIconHrefs|
    ensures forall i :: 0 <= i < |rs| ==>
      rs[i].callback == ParseTypePageHandler && rs[i].url == urljoin(response.url, response.typeIconHrefs[i])
  {
    FollowLinks(response.url, response.typeIconHrefs, urljoin, ParseTypePageHandler)
  }

  /** `parse_type_page`: a type page's creature links become requests for `parse_pokemon_page`. */
  function ParseTypePage(response: Response, urljoin: (string, string) -> string): (rs: seq<Request>)
    ensures |rs| == |response.entityNameHrefs|
    ensures forall i :: 0 <= i < |rs| ==>
      rs[i].callback == ParsePokemonPageHandler && rs[i].url == urljoin(response.url, response.entityNameHrefs[i])
  {
    FollowLinks(response.url, response.entityNameHrefs, urljoin, ParsePokemonPageHandler)
  }

  /**
   * Link order is request order: the links of two consecutive stretches of
   * a page give the requests of the first stretch, then those of the second.
   */
  lemma FollowLinksAppend(base: string, a: seq<string>, b: seq<string>, urljoin: (string, string) -> string, callback: Handler)
    ensures FollowLinks(base, a + b, urljoin, callback) == FollowLinks(base, a, urljoin, callback) + FollowLinks(base, b, urljoin, callback)
  {
  }

  /** A page that lists no links yields no requests and does not fail. */
  lemma NoLinksNoRequests(response: Response, urljoin: (string, string) -> string)
    ensures response.typeIconHrefs == [] ==> Parse(response, urljoin) == []
    ensures response.entityNameHrefs == [] ==> ParseTypePage(response, urljoin) == []
  {
  }

  /** No creature link is dropped: every listed link is requested, resolved, for `parse_pokemon_page`. */
  lemma RequestForEveryLink(response: Response, urljoin: (string, string) -> string, k: nat)
    requires k < |response.entityNameHrefs|
    ensures Request(urljoin(response.url, response.entityNameHrefs[k]), ParsePokemonPageHandler) in ParseTypePage(response, urljoin)
  {
  }
}
