/**
 * src/app/api/search/route.ts: case-insensitive search over public links;
 * visitors without a session never see internal-only links.
 */
module SearchRoute {
  import opened Wrappers
  import opened Js
  import opened Strings
  import opened Records
  import opened Queries

  /** `q` occurs, ignoring ASCII case, in the title, the URL or a non-null description. */
  predicate MentionsQuery(link: Link, q: string) {
    || ContainsIgnoreCase(link.title, q)
    || ContainsIgnoreCase(link.url, q)
    || (link.description.Some? && ContainsIgnoreCase(link.description.value, q))
  }

  /** The `where` clause: a mention, `isPublic`, and without a session `isInternalOnly == false`. */
  predicate Matches(link: Link, q: string, hasSession: bool) {
    MentionsQuery(link, q) && link.isPublic && (hasSession || !link.isInternalOnly)
  }

  /** `GET /api/search?q=…`: an empty query answers at once; a failing read is a 500. */
  method Search(db: Db, q: Option<string>, hasSession: bool, readOk: bool) returns (r: Reply<seq<Link>>)
    requires WellKeyed(db)
    ensures !Truthy(q) ==> r == Ok(200, [])
    ensures Truthy(q) && !readOk ==> r == Err(500, ServerError)
    ensures r.status == 200 <==> !Truthy(q) || readOk
    ensures r.status == 200 ==> r.body.success && r.body.data.Some?
    ensures r.status == 200 ==> var found := r.body.data.value;
      && (forall i :: 0 <= i < |found| ==>
            found[i].id in db.links && db.links[found[i].id] == found[i]
            && found[i].isPublic && (hasSession || !found[i].isInternalOnly)
            && MentionsQuery(found[i], q.value))
      && (Truthy(q) ==> forall id :: id in db.links && Matches(db.links[id], q.value, hasSession) ==> db.links[id] in found)
      && (forall i, j :: 0 <= i < j < |found| ==> found[i].id != found[j].id)
      && (forall i, j :: 0 <= i < j < |found| ==> LexLe(found[i].title, found[j].title))
  {
    if !Truthy(q) {
      return Ok(200, []);
    }
    if !readOk {
      return Err(500, ServerError);
    }
    var query := q.value;
    var ks := OrderedKeys(db.links, (l: Link) => Matches(l, query, hasSession), (l: Link) => l.title);
    var found := RowsOf(db.links, ks);
    forall id | id in db.links && Matches(db.links[id], query, hasSession)
      ensures db.links[id] in found
    {
      var i :| 0 <= i < |ks| && ks[i] == id;
      assert found[i] == db.links[id];
    }
    r := Ok(200, found);
  }
}
