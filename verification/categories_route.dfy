/**
 * src/app/api/categories/route.ts: list the categories by name, and let an
 * admin create one whose name is not taken yet.
 */
module CategoriesRoute {
  import opened Wrappers
  import opened Js
  import opened Strings
  import opened Records
  import opened Queries

  /** These routes answer with the bare value or with `{ error }`, not with an `ApiResponse`. */
  datatype Body<T> = Value(value: T) | Error(error: Failure)

  datatype Response<T> = Response(status: nat, body: Body<T>)

  /** `GET /api/categories`: every category once, ascending by name; 500 when the read fails. */
  method Get(db: Db, readOk: bool) returns (r: Response<seq<Category>>)
    requires WellKeyed(db)
    ensures !readOk <==> r == Response(500, Error(ServerError))
    ensures readOk ==> r.status == 200 && r.body.Value?
    ensures readOk ==> var cs := r.body.value;
      && (forall c :: c in cs <==> c in db.categories.Values)
      && |cs| == |db.categories|
      && (forall i, j :: 0 <= i < j < |cs| ==> cs[i].id != cs[j].id)
      && (forall i, j :: 0 <= i < j < |cs| ==> LexLe(cs[i].name, cs[j].name))
  {
    if !readOk {
      return Response(500, Error(ServerError));
    }
    var ks := OrderedKeys(db.categories, (c: Category) => true, (c: Category) => c.name);
    var cs := RowsOf(db.categories, ks);
    assert |cs| == |db.categories| by {
      DistinctKeysCoverMap(db.categories, ks);
    }
    forall c | c in db.categories.Values
      ensures c in cs
    {
      var id :| id in db.categories && db.categories[id] == c;
      var i :| 0 <= i < |ks| && ks[i] == id;
      assert cs[i] == c;
    }
    r := Response(200, Value(cs));
  }

  /** A distinct list of exactly the keys of a map is as long as the map. */
  lemma DistinctKeysCoverMap<T>(m: map<Id, T>, ks: seq<Id>)
    requires Distinct(ks)
    requires forall i :: 0 <= i < |ks| ==> ks[i] in m
    requires forall id :: id in m ==> id in ks
    ensures |ks| == |m|
  {
    var s := set i | 0 <= i < |ks| :: ks[i];
    assert s == m.Keys;
    DistinctCard(ks);
  }

  lemma {:induction false} DistinctCard(ks: seq<Id>)
    requires Distinct(ks)
    ensures |set i | 0 <= i < |ks| :: ks[i]| == |ks|
    decreases |ks|
  {
    if |ks| > 0 {
      var rest := ks[..|ks| - 1];
      DistinctCard(rest);
      var s := set i | 0 <= i < |ks| :: ks[i];
      var s' := set i | 0 <= i < |rest| :: rest[i];
      assert s == s' + {ks[|ks| - 1]};
      assert ks[|ks| - 1] !in s';
    }
  }

  /** The JSON body of a POST; a field absent or `null` is `None`. */
  datatype CategoryBody = CategoryBody(name: Option<string>, description: Option<string>, color: Option<string>)

  /** Some stored category already carries `name` (the column is unique). */
  predicate NameTaken(db: Db, name: string) {
    exists id :: id in db.categories && db.categories[id].name == name
  }

  /**
   * `POST /api/categories`: 401 for a non-admin, 400 for a missing or empty
   * name, 400 for a taken name, otherwise 201 with the new row. `readOk ==
   * false` models a failing name lookup, which ends in the catch (500).
   * `newId` is the id the database assigns; a clash with a stored row makes
   * the insert fail (500).
   */
  function Post(db: Db, isAdmin: bool, body: CategoryBody, readOk: bool, newId: Id): (h: Handled<Category>)
    ensures !isAdmin ==> h.reply == Err(401, Unauthorized)
    ensures isAdmin && !Truthy(body.name) ==> h.reply == Err(400, MissingName)
    ensures isAdmin && Truthy(body.name) && !readOk ==> h.reply == Err(500, ServerError)
    ensures isAdmin && Truthy(body.name) && readOk && NameTaken(db, body.name.value) ==> h.reply == Err(400, DuplicateName)
    ensures h.reply.status == 201 <==>
      isAdmin && Truthy(body.name) && readOk && !NameTaken(db, body.name.value) && newId !in db.categories
    ensures h.reply.status == 201 ==>
      && h.reply == Ok(201, Category(newId, body.name.value, body.description, body.color))
      && h.db == db.(categories := db.categories[newId := h.reply.body.data.value])
    ensures h.reply.status != 201 ==> h.db == db
  {
    if !isAdmin then Handled(Err(401, Unauthorized), db)
    else if !Truthy(body.name) then Handled(Err(400, MissingName), db)
    else if !readOk then Handled(Err(500, ServerError), db)
    else if NameTaken(db, body.name.value) then Handled(Err(400, DuplicateName), db)
    else if newId in db.categories then Handled(Err(500, ServerError), db)
    else
      var c := Category(newId, body.name.value, body.description, body.color);
      Handled(Ok(201, c), db.(categories := db.categories[newId := c]))
  }

  /** No two stored categories share a name. */
  ghost predicate NamesUnique(db: Db) {
    forall a, b :: a in db.categories && b in db.categories && a != b ==>
      db.categories[a].name != db.categories[b].name
  }

  /** One POST keeps names unique and keeps the tables well keyed. */
  lemma PostKeepsNamesUnique(db: Db, isAdmin: bool, body: CategoryBody, readOk: bool, newId: Id)
    requires NamesUnique(db) && WellKeyed(db)
    ensures NamesUnique(Post(db, isAdmin, body, readOk, newId).db)
    ensures WellKeyed(Post(db, isAdmin, body, readOk, newId).db)
  {
  }

  /** A request together with the outcome of its lookup and the id the database would assign to it. */
  datatype Request = Request(isAdmin: bool, body: CategoryBody, readOk: bool, newId: Id)

  /** The database after a series of POSTs, in order. */
  function Replay(db: Db, reqs: seq<Request>): Db
    decreases |reqs|
  {
    if |reqs| == 0 then db
    else
      var last := reqs[|reqs| - 1];
      Post(Replay(db, reqs[..|reqs| - 1]), last.isAdmin, last.body, last.readOk, last.newId).db
  }

  /** However many POSTs arrive, no two categories ever share a name. */
  lemma {:induction false} ReplayKeepsNamesUnique(db: Db, reqs: seq<Request>)
    requires NamesUnique(db) && WellKeyed(db)
    ensures NamesUnique(Replay(db, reqs)) && WellKeyed(Replay(db, reqs))
    decreases |reqs|
  {
    if |reqs| > 0 {
      var last := reqs[|reqs| - 1];
      ReplayKeepsNamesUnique(db, reqs[..|reqs| - 1]);
      PostKeepsNamesUnique(Replay(db, reqs[..|reqs| - 1]), last.isAdmin, last.body, last.readOk, last.newId);
    }
  }

  /** A second POST of the same name is refused, whoever sends it. */
  lemma SecondPostRefused(db: Db, body: CategoryBody, id1: Id, isAdmin: bool, readOk: bool, id2: Id)
    requires Post(db, true, body, true, id1).reply.status == 201
    ensures Post(Post(db, true, body, true, id1).db, isAdmin, body, readOk, id2).reply.status != 201
    ensures readOk ==> Post(Post(db, true, body, true, id1).db, isAdmin, body, readOk, id2).reply.status in {400, 401}
  {
    var db' := Post(db, true, body, true, id1).db;
    assert db'.categories[id1].name == body.name.value;
    assert NameTaken(db', body.name.value);
  }
}
