/**
 * src/app/api/links/route.ts: an admin creates a link; the title and the URL
 * are required, the two flags are coerced with `Boolean(…)`, and a non-empty
 * `tagIds` connects those tags.
 */
module LinksRoute {
  import opened Wrappers
  import opened Js
  import opened Records

  /** The JSON body of a POST; a field absent or `null` is `None` (or `Undefined`/`Null`). */
  datatype LinkBody = LinkBody(
    title: Option<string>,
    url: Option<string>,
    description: Option<string>,
    icon: Option<string>,
    isInternalOnly: JsValue,
    isPublic: JsValue,
    categoryId: Option<Id>,
    tagIds: Option<seq<Id>>)

  /** `tagIds?.length`: a list with at least one id. */
  predicate ConnectsTags(tagIds: Option<seq<Id>>) {
    tagIds.Some? && |tagIds.value| > 0
  }

  /** The references the insert resolves all exist: the category, and every tag when tags are connected. */
  predicate ReferencesExist(db: Db, body: LinkBody) {
    && (body.categoryId.Some? ==> body.categoryId.value in db.categories)
    && (ConnectsTags(body.tagIds) ==> forall i :: 0 <= i < |body.tagIds.value| ==> body.tagIds.value[i] in db.tags)
  }

  /** The rows for a list of tag ids, each id once, in order of first appearance. */
  function TagsOf(db: Db, ids: seq<Id>): (tags: seq<Tag>)
    requires forall i :: 0 <= i < |ids| ==> ids[i] in db.tags
    ensures forall t :: t in tags <==> exists i :: 0 <= i < |ids| && db.tags[ids[i]] == t
    ensures WellKeyed(db) ==> forall i, j :: 0 <= i < j < |tags| ==> tags[i].id != tags[j].id
    decreases |ids|
  {
    if |ids| == 0 then []
    else
      var prev := TagsOf(db, ids[..|ids| - 1]);
      var t := db.tags[ids[|ids| - 1]];
      if t in prev then prev
      else
        assert WellKeyed(db) ==> forall u :: u in prev ==> u.id != t.id;
        prev + [t]
  }

  /** The row the insert writes. */
  function NewLink(db: Db, body: LinkBody, id: Id): Link
    requires Truthy(body.title) && Truthy(body.url) && ReferencesExist(db, body)
  {
    Link(
      id, body.title.value, body.url.value, None, body.description, body.icon,
      ToBoolean(body.isInternalOnly), ToBoolean(body.isPublic),
      body.categoryId,
      if body.categoryId.Some? then Some(db.categories[body.categoryId.value]) else None,
      if ConnectsTags(body.tagIds) then TagsOf(db, body.tagIds.value) else [])
  }

  /**
   * `POST /api/links`: 401 for a non-admin, 400 when the title or the URL is
   * missing or empty, 500 when the insert fails (an unknown category or tag,
   * or an id clash), otherwise 201 with the new id.
   */
  function Post(db: Db, isAdmin: bool, body: LinkBody, newId: Id): (h: Handled<Id>)
    ensures !isAdmin ==> h.reply == Err(401, Unauthorized)
    ensures isAdmin && !(Truthy(body.title) && Truthy(body.url)) ==> h.reply == Err(400, MissingTitleOrUrl)
    ensures h.reply.status == 201 <==>
      isAdmin && Truthy(body.title) && Truthy(body.url) && ReferencesExist(db, body) && newId !in db.links
    ensures h.reply.status != 201 ==> h.db == db && !h.reply.body.success
    ensures h.reply.status == 201 ==>
      && h.reply == Ok(201, newId)
      && h.db.categories == db.categories && h.db.tags == db.tags
      && h.db.links.Keys == db.links.Keys + {newId}
      && (forall id :: id in db.links ==> h.db.links[id] == db.links[id])
  {
    if !isAdmin then Handled(Err(401, Unauthorized), db)
    else if !(Truthy(body.title) && Truthy(body.url)) then Handled(Err(400, MissingTitleOrUrl), db)
    else if !ReferencesExist(db, body) || newId in db.links then Handled(Err(500, ServerError), db)
    else Handled(Ok(201, newId), db.(links := db.links[newId := NewLink(db, body, newId)]))
  }

  /** What a created row holds: the body's fields, both flags by truthiness, no external URL, and the named relations. */
  lemma CreatedRow(db: Db, isAdmin: bool, body: LinkBody, newId: Id)
    requires WellKeyed(db)
    requires Post(db, isAdmin, body, newId).reply.status == 201
    ensures var l := Post(db, isAdmin, body, newId).db.links[newId];
      && l.id == newId && Some(l.title) == body.title && Some(l.url) == body.url
      && l.description == body.description && l.icon == body.icon && l.externalUrl.None?
      && (l.isPublic <==> ToBoolean(body.isPublic))
      && (l.isInternalOnly <==> ToBoolean(body.isInternalOnly))
      && l.categoryId == body.categoryId
      && (l.category.Some? <==> body.categoryId.Some?)
      && (l.category.Some? ==> l.category.value.id == body.categoryId.value)
      && (forall t :: t in l.tags <==> ConnectsTags(body.tagIds) && t in db.tags.Values && t.id in body.tagIds.value)
      && (forall i, j :: 0 <= i < j < |l.tags| ==> l.tags[i].id != l.tags[j].id)
  {
    var l := Post(db, isAdmin, body, newId).db.links[newId];
    if ConnectsTags(body.tagIds) {
      var ids := body.tagIds.value;
      forall t | t in db.tags.Values && t.id in ids
        ensures t in l.tags
      {
        var i :| 0 <= i < |ids| && ids[i] == t.id;
        assert db.tags[ids[i]] == t;
      }
    }
  }

  /** A missing `isPublic` creates a hidden link: `Boolean(undefined)` is false. */
  lemma MissingIsPublicHides(db: Db, body: LinkBody, newId: Id)
    requires body.isPublic == Undefined
    requires Post(db, true, body, newId).reply.status == 201
    ensures !Post(db, true, body, newId).db.links[newId].isPublic
  {
  }

  /** A created row is stored under its own id, so the table stays well keyed. */
  lemma PostKeepsWellKeyed(db: Db, isAdmin: bool, body: LinkBody, newId: Id)
    requires WellKeyed(db)
    ensures WellKeyed(Post(db, isAdmin, body, newId).db)
  {
  }
}
