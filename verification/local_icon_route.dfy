/**
 * src/app/api/local-icon/route.ts: a browser inside the private network
 * hands over an icon it captured for an internal link; the server only
 * validates and stores it. There is no session check.
 */
module LocalIconRoute {
  import opened Wrappers
  import opened Js
  import opened Urls
  import opened Records
  import opened Locality
  import opened IconRoute

  datatype LocalIconBody = LocalIconBody(linkId: Option<Id>, iconBase64: Option<string>)

  /**
   * The checks in source order: parameters, the `findUnique` read (which
   * ends in the outer catch when it fails), existence, locality of `link.url`.
   */
  function Check(db: Db, body: LocalIconBody, parse: Parser, readOk: bool): (r: Option<Reply<bool>>)
    ensures !Truthy(body.linkId) || !IsDataUri(body.iconBase64) ==> r == Some(Err(400, MissingParameters))
    ensures Truthy(body.linkId) && IsDataUri(body.iconBase64) && !readOk ==> r == Some(Err(500, ServerError))
    ensures Truthy(body.linkId) && IsDataUri(body.iconBase64) && readOk && body.linkId.value !in db.links ==>
      r == Some(Err(404, LinkNotFound))
    ensures (Truthy(body.linkId) && IsDataUri(body.iconBase64) && readOk && body.linkId.value in db.links
             && db.links[body.linkId.value].url != "" && !IsInternalUrl(parse, db.links[body.linkId.value].url)) ==>
      r == Some(Err(400, NotInternalLink))
    ensures r.None? <==>
      Truthy(body.linkId) && IsDataUri(body.iconBase64) && readOk && body.linkId.value in db.links
      && var url := db.links[body.linkId.value].url; (url == "" || IsInternalUrl(parse, url))
  {
    if !Truthy(body.linkId) || !IsDataUri(body.iconBase64) then Some(Err(400, MissingParameters))
    else if !readOk then Some(Err(500, ServerError))
    else if body.linkId.value !in db.links then Some(Err(404, LinkNotFound))
    else
      var url := db.links[body.linkId.value].url;
      if url != "" && !IsInternalUrl(parse, url) then Some(Err(400, NotInternalLink))
      else None
  }

  /** `POST /api/local-icon`. */
  function Post(db: Db, body: LocalIconBody, parse: Parser, readOk: bool, writeOk: bool): (h: Handled<bool>)
    ensures h.reply.status in {200, 400, 404, 500}
    ensures h.reply.status != 200 ==> h.db == db
    ensures h.reply.status == 404 ==> Truthy(body.linkId) && body.linkId.value !in db.links
    ensures h.reply.status == 500 ==> !readOk || !writeOk
    ensures h.reply.status == 200 <==>
      Truthy(body.linkId) && IsDataUri(body.iconBase64) && body.linkId.value in db.links && readOk && writeOk
      && var url := db.links[body.linkId.value].url; (url == "" || IsInternalUrl(parse, url))
    // exactly the captured data URI lands in that link's icon, and nothing else changes
    ensures h.reply.status == 200 ==>
      h.reply == Ok(200, true) && h.db == SetIcon(db, body.linkId.value, body.iconBase64.value)
  {
    match Check(db, body, parse, readOk)
    case Some(refusal) => Handled(refusal, db)
    case None =>
      if writeOk then Handled(Ok(200, true), SetIcon(db, body.linkId.value, body.iconBase64.value))
      else Handled(Err(500, ServerError), db)
  }

  /** A link whose `url` is a non-empty, non-internal URL never has its icon replaced here. */
  lemma ExternalLinkRejected(db: Db, body: LocalIconBody, parse: Parser, writeOk: bool)
    requires Truthy(body.linkId) && IsDataUri(body.iconBase64) && body.linkId.value in db.links
    requires db.links[body.linkId.value].url != ""
    requires !IsInternalUrl(parse, db.links[body.linkId.value].url)
    ensures Post(db, body, parse, true, writeOk) == Handled(Err(400, NotInternalLink), db)
  {
  }
}
