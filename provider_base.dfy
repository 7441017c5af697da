/**
 * The abstract cover-art provider: what every site adapter supplies, the
 * redirect-safety rule shared by all of them, the page-fetch decision, the
 * artwork type codes and the shared `og:image` image finder.
 */
module ProviderBase {
  import opened Wrappers
  import opened Strings

  /** A parsed URL. Its `href` is the protocol (with its colon), `//`, the host name and the rest. */
  datatype Url = Url(protocol: string, hostname: string, path: string) {
    function Href(): string {
      protocol + "//" + hostname + path
    }
  }

  /**
   * One site adapter. `supportsUrl` and `extractId` are each adapter's own
   * URL rules; the model treats them as arbitrary functions.
   */
  datatype Provider = Provider(
    name: string,
    favicon: string,
    supportedDomains: seq<string>,
    supportsUrl: Url -> bool,
    extractId: Url -> Option<string>)

  /** The host site's artwork type vocabulary. */
  datatype ArtworkType =
    | Front | Back | Booklet | Medium | Obi | Spine | Track
    | Other | Tray | Sticker | Poster | Liner | Watermark | Raw

  /** The host site's numeric identifier of each artwork type. */
  function ArtworkTypeId(t: ArtworkType): (id: int)
    ensures 1 <= id <= 14
  {
    match t
    case Front => 1
    case Back => 2
    case Booklet => 3
    case Medium => 4
    case Obi => 5
    case Spine => 6
    case Track => 7
    case Other => 8
    case Tray => 9
    case Sticker => 10
    case Poster => 11
    case Liner => 12
    case Watermark => 13
    case Raw => 14
  }

  /** The artwork type with a given identifier, if there is one. */
  function ArtworkTypeFromId(id: int): (t: Option<ArtworkType>)
    ensures t.Some? <==> 1 <= id <= 14
    ensures t.Some? ==> ArtworkTypeId(t.value) == id
  {
    if id == 1 then Some(Front)
    else if id == 2 then Some(Back)
    else if id == 3 then Some(Booklet)
    else if id == 4 then Some(Medium)
    else if id == 5 then Some(Obi)
    else if id == 6 then Some(Spine)
    else if id == 7 then Some(Track)
    else if id == 8 then Some(Other)
    else if id == 9 then Some(Tray)
    else if id == 10 then Some(Sticker)
    else if id == 11 then Some(Poster)
    else if id == 12 then Some(Liner)
    else if id == 13 then Some(Watermark)
    else if id == 14 then Some(Raw)
    else None
  }

  /** Distinct artwork types have distinct identifiers, and every identifier names its type back. */
  lemma ArtworkTypeIdInjective(a: ArtworkType, b: ArtworkType)
    ensures ArtworkTypeFromId(ArtworkTypeId(a)) == Some(a)
    ensures ArtworkTypeId(a) == ArtworkTypeId(b) ==> a == b
  {
    match a
    case Front =>
    case Back =>
    case Booklet =>
    case Medium =>
    case Obi =>
    case Spine =>
    case Track =>
    case Other =>
    case Tray =>
    case Sticker =>
    case Poster =>
    case Liner =>
    case Watermark =>
    case Raw =>
  }

  /** An image candidate: where to fetch it, its artwork types and a comment, the last two optional. */
  datatype CoverArt = CoverArt(url: Url, types: Option<seq<ArtworkType>>, comment: Option<string>)

  /** What the HTTP layer reports: the URL text after following redirects, and the body. */
  datatype HttpResponse = HttpResponse(finalUrl: string, responseText: string)

  /** A parsed page, represented by the text it was parsed from. */
  datatype Document = Document(source: string)

  /**
   * Why a provider gives up: a refused redirect, a page element that is not
   * there, or text the `URL` constructor rejects (its `TypeError`).
   */
  datatype ProviderError =
    | UnsafeRedirect(message: string)
    | MissingElement(selector: string)
    | InvalidUrl(input: string)

  /** A redirect is safe when the original URL has a non-empty ID and the redirected URL has the same one. */
  predicate IsSafeRedirect(p: Provider, originalUrl: Url, redirectedUrl: Url) {
    var id := p.extractId(originalUrl);
    id.Some? && id.value != "" && id == p.extractId(redirectedUrl)
  }

  lemma SafeRedirectNeedsId(p: Provider, originalUrl: Url, redirectedUrl: Url)
    requires p.extractId(originalUrl) == None || p.extractId(originalUrl) == Some("")
    ensures !IsSafeRedirect(p, originalUrl, redirectedUrl)
  {
  }

  lemma SafeRedirectSameId(p: Provider, originalUrl: Url, redirectedUrl: Url, id: string)
    requires id != "" && p.extractId(originalUrl) == Some(id) && p.extractId(redirectedUrl) == Some(id)
    ensures IsSafeRedirect(p, originalUrl, redirectedUrl)
  {
  }

  lemma SafeRedirectDifferentIds(p: Provider, originalUrl: Url, redirectedUrl: Url)
    requires p.extractId(originalUrl) != p.extractId(redirectedUrl)
    ensures !IsSafeRedirect(p, originalUrl, redirectedUrl)
  {
  }

  lemma SafeRedirectSymmetric(p: Provider, a: Url, b: Url)
    ensures IsSafeRedirect(p, a, b) == IsSafeRedirect(p, b, a)
  {
  }

  function RedirectMessage(name: string, finalUrl: string): string {
    "Refusing to extract images from " + name + " provider because the original URL redirected to "
    + finalUrl + ", which may be a different release. If this redirected URL is correct, please retry with "
    + finalUrl + " directly."
  }

  /** The message names the provider and the URL it was redirected to. */
  lemma RedirectMessageNames(name: string, finalUrl: string)
    ensures Contains(RedirectMessage(name, finalUrl), name)
    ensures Contains(RedirectMessage(name, finalUrl), finalUrl)
  {
    var pre := "Refusing to extract images from ";
    var mid := " provider because the original URL redirected to ";
    var msg := RedirectMessage(name, finalUrl);
    assert msg[|pre|..|pre| + |name|] == name;
    assert MatchAt(msg, name, |pre|);
    var at := |pre| + |name| + |mid|;
    assert msg[at..at + |finalUrl|] == finalUrl;
    assert MatchAt(msg, finalUrl, at);
  }

  /**
   * The decision taken after fetching a page: accept it when its final URL
   * text is the requested URL's `href`; otherwise parse the final URL with
   * `parseUrl` (the `URL` constructor, `None` where it throws) and accept only
   * a safe redirect.
   */
  function FetchPageDOM(p: Provider, url: Url, resp: HttpResponse, parseUrl: string -> Option<Url>)
    : (r: Result<Document, ProviderError>)
    ensures r.Ok? <==> (resp.finalUrl == url.Href()
      || (parseUrl(resp.finalUrl).Some? && IsSafeRedirect(p, url, parseUrl(resp.finalUrl).value)))
    ensures r.Ok? ==> r.value == Document(resp.responseText)
    ensures r.Err? && parseUrl(resp.finalUrl).None? ==> r.error == InvalidUrl(resp.finalUrl)
    ensures r.Err? && parseUrl(resp.finalUrl).Some? ==> r.error == UnsafeRedirect(RedirectMessage(p.name, resp.finalUrl))
  {
    if resp.finalUrl == url.Href() then Ok(Document(resp.responseText))
    else
      match parseUrl(resp.finalUrl)
      case None => Err(InvalidUrl(resp.finalUrl))
      case Some(finalUrl) =>
        if IsSafeRedirect(p, url, finalUrl) then Ok(Document(resp.responseText))
        else Err(UnsafeRedirect(RedirectMessage(p.name, resp.finalUrl)))
  }

  /** A page that was not redirected is never refused, whatever its URL's ID. */
  lemma UnredirectedFetchAccepted(p: Provider, url: Url, body: string, parseUrl: string -> Option<Url>)
    ensures FetchPageDOM(p, url, HttpResponse(url.Href(), body), parseUrl) == Ok(Document(body))
  {
  }

  const OgImageSelector := "head > meta[property=\"og:image\"]"

  /**
   * The image finder shared by providers whose cover is the page's `og:image`
   * meta property. `ogImage` gives the content of the first such element of a
   * document, if it has one; `parseUrl` is the `URL` constructor.
   */
  function HeadMetaFindImages(
    p: Provider, url: Url, resp: HttpResponse,
    parseUrl: string -> Option<Url>, ogImage: Document -> Option<string>)
    : (r: Result<seq<CoverArt>, ProviderError>)
    ensures FetchPageDOM(p, url, resp, parseUrl).Err? ==> r == Err(FetchPageDOM(p, url, resp, parseUrl).error)
    ensures FetchPageDOM(p, url, resp, parseUrl).Ok? ==>
      var content := ogImage(Document(resp.responseText));
      && (content.None? ==> r == Err(MissingElement(OgImageSelector)))
      && (content.Some? && parseUrl(content.value).None? ==> r == Err(InvalidUrl(content.value)))
      && (content.Some? && parseUrl(content.value).Some? ==>
            r == Ok([CoverArt(parseUrl(content.value).value, Some([Front]), None)]))
  {
    var doc :- FetchPageDOM(p, url, resp, parseUrl);
    match ogImage(doc)
    case None => Err(MissingElement(OgImageSelector))
    case Some(content) =>
      match parseUrl(content)
      case None => Err(InvalidUrl(content))
      case Some(imageUrl) => Ok([CoverArt(imageUrl, Some([Front]), None)])
  }
}
