/** src/lib/utils.ts `getLinkIcon`: the icon a link card displays. */
module LinkIcon {
  import opened Wrappers
  import opened Js
  import opened Strings
  import opened Urls

  /** The object a caller passes: only `icon` and `url` are read. */
  datatype IconRequest = IconRequest(icon: Option<string>, url: string, externalUrl: Option<string>)

  const S2Prefix: string := "https://www.google.com/s2/favicons?domain="
  const S2Suffix: string := "&sz=128"
  const PlaceholderIcon: string := "/placeholder-icon.svg"

  /** The Google s2 favicon service URL for a hostname, at size 128. */
  function S2FaviconUrl(host: string): (r: string)
    ensures StartsWith(r, S2Prefix) && EndsWith(r, S2Suffix)
    ensures |r| == |S2Prefix| + |host| + |S2Suffix|
  {
    var r := S2Prefix + host + S2Suffix;
    assert r[..|S2Prefix|] == S2Prefix;
    assert r[|r| - |S2Suffix|..] == S2Suffix;
    r
  }

  /** Reads the hostname back out of an s2 favicon URL. */
  function S2Domain(u: string): Option<string> {
    if |u| >= |S2Prefix| + |S2Suffix| && StartsWith(u, S2Prefix) && EndsWith(u, S2Suffix)
    then Some(u[|S2Prefix|..|u| - |S2Suffix|])
    else None
  }

  /** The s2 URL carries exactly the hostname it was built from. */
  lemma S2RoundTrip(host: string)
    ensures S2Domain(S2FaviconUrl(host)) == Some(host)
  {
    var u := S2FaviconUrl(host);
    assert u == S2Prefix + host + S2Suffix;
    assert u[|S2Prefix|..|u| - |S2Suffix|] == host;
  }

  /** `getLinkIcon(link)`. */
  function GetLinkIcon(parse: Parser, req: IconRequest): (r: string)
    ensures r != ""
    ensures Truthy(req.icon) ==> r == req.icon.value
    ensures !Truthy(req.icon) && parse(req.url).None? ==> r == PlaceholderIcon
    ensures !Truthy(req.icon) && parse(req.url).Some? ==>
      S2Domain(r) == Some(parse(req.url).value.hostname)
  {
    if Truthy(req.icon) then req.icon.value
    else match parse(req.url)
      case Some(u) =>
        S2RoundTrip(u.hostname);
        S2FaviconUrl(u.hostname)
      case None => PlaceholderIcon
  }

  /** The placeholder path is never mistaken for an s2 URL. */
  lemma PlaceholderIsNotS2()
    ensures S2Domain(PlaceholderIcon) == None
  {
    NotStartsWith(PlaceholderIcon, S2Prefix, 0);
  }

  /** Only `icon` and `url` matter: `externalUrl` has no effect. */
  lemma GetLinkIconIgnoresExternalUrl(parse: Parser, a: IconRequest, b: IconRequest)
    requires a.icon == b.icon && a.url == b.url
    ensures GetLinkIcon(parse, a) == GetLinkIcon(parse, b)
  {
  }
}
