/**
 * The address the analyze route asks the reading proxy for
 * (`fetchRawXiaohongshuContent`): one leading `http://` or `https://` is
 * removed from the profile URL and the proxy's base address is put in front.
 * The request itself and its response are outside the model; the route
 * receives the proxy's answer as a parameter.
 */
module Fetcher {
  import opened Text

  const ProxyBase: string := "https://r.jina.ai/"
  const Https: string := "https://"
  const Http: string := "http://"

  /** The scheme `^https?:\/\/` removes: `https://` (the greedy `s?` is tried first), `http://`, or nothing. */
  function SchemeOf(url: string): (scheme: string)
    ensures scheme == Https || scheme == Http || scheme == ""
    ensures StartsWith(url, scheme)
    ensures scheme == "" <==> !StartsWith(url, Https) && !StartsWith(url, Http)
  {
    if StartsWith(url, Https) then Https
    else if StartsWith(url, Http) then Http
    else ""
  }

  /** The URL without its leading scheme. */
  function StripScheme(url: string): (rest: string)
    ensures url == SchemeOf(url) + rest
  {
    url[|SchemeOf(url)|..]
  }

  /**
   * The proxy address for a profile URL: the base, then the URL with at most
   * one leading scheme removed and nothing else changed.
   */
  function ProxyUrl(url: string): (r: string)
    ensures StartsWith(r, ProxyBase)
    ensures url == SchemeOf(url) + r[|ProxyBase|..]
  {
    ProxyBase + StripScheme(url)
  }

  /**
   * Only one scheme is removed: a URL whose own text starts with a second
   * scheme keeps it.
   */
  lemma OneSchemeRemoved(scheme: string, rest: string)
    requires scheme == Https || scheme == Http
    ensures ProxyUrl(scheme + rest) == ProxyBase + rest
  {
    var url := scheme + rest;
    assert url[..|scheme|] == scheme;
    if scheme == Http {
      assert url[4] == ':' && Https[4] == 's';
      assert !StartsWith(url, Https);
    }
    assert url[|scheme|..] == rest;
  }

  /** `http://`, `https://` and no scheme at all lead to the same proxy address. */
  lemma SchemeIrrelevant(rest: string)
    requires !StartsWith(rest, Https) && !StartsWith(rest, Http)
    ensures ProxyUrl(Https + rest) == ProxyUrl(Http + rest) == ProxyUrl(rest)
  {
    OneSchemeRemoved(Https, rest);
    OneSchemeRemoved(Http, rest);
  }
}
