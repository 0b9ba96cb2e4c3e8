/**
 * src/app/api/icon/route.ts: an admin uploads or requests a link's icon
 * (`POST`), or anyone asks for a link's or a URL's icon (`GET`). The
 * session is a boolean, the URL parser a parameter, and a failing database
 * read or write the flag `readOk == false` or `writeOk == false`.
 */
module IconRoute {
  import opened Wrappers
  import opened Js
  import opened Strings
  import opened Urls
  import opened Records
  import opened Locality
  import opened LinkIcon

  const NetworkIcon: string := "/icons/network-icon.svg"

  /** The icon the server settles on for a URL without fetching anything. */
  function ServerIcon(parse: Parser, urlToUse: string, externalUrl: Option<string>): (r: string)
    ensures r != ""
    ensures IsInternalUrl(parse, urlToUse) ==> r == NetworkIcon
    ensures !IsInternalUrl(parse, urlToUse) && parse(urlToUse).Some? ==>
      S2Domain(r) == Some(parse(urlToUse).value.hostname)
    ensures parse(urlToUse).None? ==> r == PlaceholderIcon
  {
    if IsInternalUrl(parse, urlToUse) then NetworkIcon
    else GetLinkIcon(parse, IconRequest(None, urlToUse, externalUrl))
  }

  /** A client-captured icon is accepted only with the `data:` scheme of RFC 2397. */
  predicate IsDataUri(o: Option<string>) {
    Truthy(o) && StartsWith(o.value, "data:")
  }

  /** The URL priority of both handlers: explicit `url`, then `externalUrl`, then the link's `url`. */
  function UrlToUse(url: Option<string>, link: Link): (r: Option<string>)
    ensures Truthy(url) ==> r == url
    ensures !Truthy(url) && Truthy(link.externalUrl) ==> r == link.externalUrl
    ensures !Truthy(url) && !Truthy(link.externalUrl) ==> r == Some(link.url)
    ensures Truthy(r) <==> Truthy(url) || Truthy(link.externalUrl) || link.url != ""
  {
    Or(url, Or(link.externalUrl, Some(link.url)))
  }

  datatype PostBody = PostBody(linkId: Option<Id>, iconBase64: Option<string>, url: Option<string>)

  /** The icon `POST` settles on for an existing link, or `None` (JSON null). */
  function PostIcon(parse: Parser, body: PostBody, link: Link): (icon: Option<string>)
    ensures IsDataUri(body.iconBase64) ==> icon == body.iconBase64
    ensures !IsDataUri(body.iconBase64) && Truthy(UrlToUse(body.url, link)) ==>
      icon == Some(ServerIcon(parse, UrlToUse(body.url, link).value, link.externalUrl))
    ensures icon.None? <==>
      !IsDataUri(body.iconBase64) && !Truthy(body.url) && link.url == "" && !Truthy(link.externalUrl)
    ensures icon.Some? ==> icon.value != ""
  {
    if IsDataUri(body.iconBase64) then body.iconBase64
    else if Truthy(body.url) || link.url != "" || Truthy(link.externalUrl) then
      Some(ServerIcon(parse, UrlToUse(body.url, link).value, link.externalUrl))
    else None
  }

  /**
   * `POST /api/icon`. `readOk == false` models a failing `findUnique`, and
   * `writeOk == false` a failing `update`; both end in the outer catch (500).
   */
  function Post(db: Db, isAdmin: bool, body: PostBody, parse: Parser, readOk: bool, writeOk: bool): (h: Handled<Option<string>>)
    ensures !isAdmin ==> h == Handled(Err(401, Unauthorized), db)
    ensures isAdmin && !Truthy(body.linkId) ==> h == Handled(Err(400, MissingParameters), db)
    ensures isAdmin && Truthy(body.linkId) && !readOk ==> h == Handled(Err(500, ServerError), db)
    ensures isAdmin && Truthy(body.linkId) && readOk && body.linkId.value !in db.links ==>
      h == Handled(Err(404, LinkNotFound), db)
    ensures h.reply.status in {200, 400, 401, 404, 500}
    ensures h.reply.status != 200 ==> h.db == db
    // a valid request for a stored link succeeds unless the icon it settles on cannot be written
    ensures isAdmin && Truthy(body.linkId) && readOk && body.linkId.value in db.links ==>
      (h.reply.status == 200 <==> writeOk || PostIcon(parse, body, db.links[body.linkId.value]).None?)
    ensures h.reply.status == 200 ==>
      isAdmin && Truthy(body.linkId) && body.linkId.value in db.links
      && var link := db.links[body.linkId.value];
         var icon := PostIcon(parse, body, link);
         && h.reply == Ok(200, icon)
         && h.db == (if icon.Some? then SetIcon(db, body.linkId.value, icon.value) else db)
    ensures h.reply.status == 500 ==> !readOk || !writeOk
  {
    if !isAdmin then Handled(Err(401, Unauthorized), db)
    else if !Truthy(body.linkId) then Handled(Err(400, MissingParameters), db)
    else if !readOk then Handled(Err(500, ServerError), db)
    else if body.linkId.value !in db.links then Handled(Err(404, LinkNotFound), db)
    else
      var id := body.linkId.value;
      var icon := PostIcon(parse, body, db.links[id]);
      if icon.Some? then
        if writeOk then Handled(Ok(200, icon), SetIcon(db, id, icon.value))
        else Handled(Err(500, ServerError), db)
      else Handled(Ok(200, icon), db)
  }

  datatype GetQuery = GetQuery(url: Option<string>, linkId: Option<Id>)

  /** The link `GET` looked up: only when `linkId` was given and exists. */
  function LookedUp(db: Db, q: GetQuery): Option<Link> {
    if Truthy(q.linkId) && q.linkId.value in db.links then Some(db.links[q.linkId.value]) else None
  }

  /**
   * `GET /api/icon`. `readOk == false` models a failing `findUnique`, which
   * only happens when `linkId` is given and ends in the outer catch (500).
   * A failing write-back is caught inside and answers the placeholder.
   */
  function Get(db: Db, q: GetQuery, parse: Parser, readOk: bool, writeOk: bool): (h: Handled<Option<string>>)
    ensures !Truthy(q.url) && !Truthy(q.linkId) ==> h == Handled(Err(400, MissingParameters), db)
    ensures Truthy(q.linkId) && !readOk ==> h == Handled(Err(500, ServerError), db)
    ensures Truthy(q.url) || Truthy(q.linkId) ==>
      (h.reply.status == 200 <==> readOk || !Truthy(q.linkId))
    ensures h.reply.status == 200 ==> h.reply.body.success
    // a stored icon wins: returned verbatim, nothing resolved, nothing written
    ensures readOk && LookedUp(db, q).Some? && Truthy(LookedUp(db, q).value.icon) ==>
      h == Handled(Ok(200, LookedUp(db, q).value.icon), db)
    // an unknown link is not an error: without a URL the icon is null
    ensures readOk && Truthy(q.linkId) && q.linkId.value !in db.links && !Truthy(q.url) ==>
      h == Handled(Ok(200, None), db)
    // a given `url` is resolved, and written back when a link was found
    ensures (readOk || !Truthy(q.linkId)) && Truthy(q.url) && (LookedUp(db, q).None? || !Truthy(LookedUp(db, q).value.icon)) ==>
      var icon := ServerIcon(parse, q.url.value, if LookedUp(db, q).Some? then LookedUp(db, q).value.externalUrl else None);
      if LookedUp(db, q).None? then h == Handled(Ok(200, Some(icon)), db)
      else if writeOk then h == Handled(Ok(200, Some(icon)), SetIcon(db, q.linkId.value, icon))
      else h == Handled(Ok(200, Some(PlaceholderIcon)), db)
    // only `linkId`: the link's `externalUrl`, else its `url`, is resolved and written back
    ensures readOk && !Truthy(q.url) && LookedUp(db, q).Some? && !Truthy(LookedUp(db, q).value.icon) ==>
      var link := LookedUp(db, q).value;
      var u := UrlToUse(None, link);
      if !Truthy(u) then h == Handled(Ok(200, None), db)
      else
        var icon := ServerIcon(parse, u.value, link.externalUrl);
        if writeOk then h == Handled(Ok(200, Some(icon)), SetIcon(db, q.linkId.value, icon))
        else h == Handled(Ok(200, Some(PlaceholderIcon)), db)
  {
    if !Truthy(q.url) && !Truthy(q.linkId) then Handled(Err(400, MissingParameters), db)
    else if Truthy(q.linkId) && !readOk then Handled(Err(500, ServerError), db)
    else
      var link := LookedUp(db, q);
      if link.Some? && Truthy(link.value.icon) then Handled(Ok(200, link.value.icon), db)
      else if Truthy(q.url) || (link.Some? && (link.value.url != "" || Truthy(link.value.externalUrl))) then
        var urlToUse := if Truthy(q.url) then q.url.value else UrlToUse(None, link.value).value;
        var icon := ServerIcon(parse, urlToUse, if link.Some? then link.value.externalUrl else None);
        if link.Some? then
          if writeOk then Handled(Ok(200, Some(icon)), SetIcon(db, q.linkId.value, icon))
          else Handled(Ok(200, Some(PlaceholderIcon)), db)
        else Handled(Ok(200, Some(icon)), db)
      else Handled(Ok(200, None), db)
  }

  /** A successful `GET` through a known link leaves that link with a non-empty icon, so the next `GET` returns it unresolved. */
  lemma GetCachesIcon(db: Db, q: GetQuery, parse: Parser, parse2: Parser, url2: Option<string>)
    requires Truthy(q.linkId) && q.linkId.value in db.links
    requires db.links[q.linkId.value].url != ""
    ensures var h := Get(db, q, parse, true, true);
      var h2 := Get(h.db, GetQuery(url2, q.linkId), parse2, true, true);
      h2.reply == h.reply && h2.db == h.db
  {
  }
}
