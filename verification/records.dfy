/**
 * The record shapes of src/lib/types.ts (timestamps left out) and the
 * database as three immutable tables keyed by id.
 */
module Records {
  import opened Wrappers

  type Id = string

  datatype Tag = Tag(id: Id, name: string, color: Option<string>)

  datatype Category = Category(id: Id, name: string, description: Option<string>, color: Option<string>)

  /** `LinkWithRelations`: a link row with its category and tags included. */
  datatype Link = Link(
    id: Id,
    title: string,
    url: string,
    externalUrl: Option<string>,
    description: Option<string>,
    icon: Option<string>,
    isInternalOnly: bool,
    isPublic: bool,
    categoryId: Option<Id>,
    category: Option<Category>,
    tags: seq<Tag>)

  /** The three tables the routes read and write. */
  datatype Db = Db(links: map<Id, Link>, categories: map<Id, Category>, tags: map<Id, Tag>)

  /** Every row is stored under its own id. */
  ghost predicate WellKeyed(db: Db) {
    && (forall id :: id in db.links ==> db.links[id].id == id)
    && (forall id :: id in db.categories ==> db.categories[id].id == id)
    && (forall id :: id in db.tags ==> db.tags[id].id == id)
  }

  /** Why a route refused a request (the source's error strings, by meaning). */
  datatype Failure =
    | Unauthorized
    | MissingParameters
    | LinkNotFound
    | NotInternalLink
    | MissingTitleOrUrl
    | MissingName
    | DuplicateName
    | ServerError

  /** `ApiResponse<T>`: `{ success, data?, error? }`. */
  datatype ApiResponse<T> = ApiResponse(success: bool, data: Option<T>, error: Option<Failure>)

  /** An HTTP status together with its JSON body. */
  datatype Reply<T> = Reply(status: nat, body: ApiResponse<T>)

  /** A route's reply together with the database after the request. */
  datatype Handled<T> = Handled(reply: Reply<T>, db: Db)

  function Ok<T>(status: nat, data: T): Reply<T> {
    Reply(status, ApiResponse(true, Some(data), None))
  }

  function Err<T>(status: nat, failure: Failure): Reply<T> {
    Reply(status, ApiResponse(false, None, Some(failure)))
  }

  /** The database with one link's icon replaced and nothing else touched. */
  function SetIcon(db: Db, id: Id, icon: string): (db': Db)
    requires id in db.links
    ensures db'.links.Keys == db.links.Keys
    ensures db'.links[id].icon == Some(icon)
    ensures db'.links[id] == db.links[id].(icon := Some(icon))
    ensures forall other :: other in db.links && other != id ==> db'.links[other] == db.links[other]
    ensures db'.categories == db.categories && db'.tags == db.tags
  {
    db.(links := db.links[id := db.links[id].(icon := Some(icon))])
  }
}
