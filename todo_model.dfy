/**
 * The Item table and the decision rule of each /items route. POST, GET by id,
 * PUT and DELETE are functions from the table before a request to the
 * response and the table after it; GET /items is the predicate
 * `ListsExactly`, since the listing has no promised order. The table is the `Items` set of the database context: a map from the
 * primary key to the stored row.
 */
module TodoModel {
  import Decimal

  datatype Option<T> = None | Some(value: T)

  /**
   * One todo entry: id, free-form title, completion flag. The id is chosen by
   * the caller, except that 0 (the default of an `int`) asks the database to
   * generate one.
   */
  datatype Item = Item(id: int, title: string, isCompleted: bool)

  type Table = map<int, Item>

  /** The primary key of every stored row is the row's own id. */
  predicate Keyed(m: Table) {
    forall k :: k in m ==> m[k].id == k
  }

  /** Some stored row carries this id. */
  ghost predicate StoresId(m: Table, id: int) {
    exists k :: k in m && m[k].id == id
  }

  /** `x` is the row stored under its own id. */
  predicate IsStored(m: Table, x: Item) {
    x.id in m && m[x.id] == x
  }

  /** The responses the handlers produce, one per result helper they call. */
  datatype Response =
    | OkList(items: seq<Item>)
    | Ok(item: Item)
    | Created(location: string, item: Item)
    | NoContent
    | BadRequest
    | NotFound
  {
    function StatusCode(): int {
      match this
      case OkList(_) => 200
      case Ok(_) => 200
      case Created(_, _) => 201
      case NoContent => 204
      case BadRequest => 400
      case NotFound => 404
    }
  }

  /** The table after a request, with the response to it. */
  datatype Outcome = Outcome(store: Table, response: Response)

  /** The Location header of a created item. */
  function Location(id: int): (loc: string)
    ensures |loc| > 7 && loc[..7] == "/Items/"
    ensures Decimal.IsIntText(loc[7..]) && Decimal.ToInt(loc[7..]) == id
  {
    Decimal.IntRoundTrip(id);
    assert ("/Items/" + Decimal.FromInt(id))[7..] == Decimal.FromInt(id);
    "/Items/" + Decimal.FromInt(id)
  }

  /** Two created items share a Location exactly when they share an id. */
  lemma LocationInjective(a: int, b: int)
    ensures Location(a) == Location(b) <==> a == b
  {
    // Follows from Location's contract: the text after "/Items/" reads back as the id.
  }

  /**
   * The lookup `FirstOrDefault(x => x.Id == id)`: on a keyed table, a search
   * for the row with that id is a lookup of that key.
   */
  function FirstOrDefault(m: Table, id: int): (r: Option<Item>)
    ensures r.Some? ==> exists k :: k in m && m[k] == r.value
    ensures Keyed(m) ==> (r.Some? <==> StoresId(m, id))
    ensures Keyed(m) && r.Some? ==> r.value.id == id
  {
    if id in m then Some(m[id]) else None
  }

  /**
   * The key a row is inserted under: its own id, or, for id 0, the key the
   * database generates on the save (written back into the item).
   */
  function InsertedKey(item: Item, generated: int): int {
    if item.id == 0 then generated else item.id
  }

  /**
   * POST /items: refuse an id already stored; otherwise insert the item,
   * under the generated key when its id is 0, and answer with the saved item.
   * `generated` is the key the database would assign to a new row; it is
   * never a key already in use.
   */
  function Post(m: Table, item: Item, generated: int): (o: Outcome)
    requires generated !in m
    ensures Keyed(m) ==> (o.response == BadRequest <==> StoresId(m, item.id))
    ensures item.id in m ==> o == Outcome(m, BadRequest)
    ensures item.id !in m && item.id != 0 ==>
      && o.response == Created(Location(item.id), item)
      && o.store.Keys == m.Keys + {item.id}
      && o.store[item.id] == item
      && (forall k :: k in m ==> o.store[k] == m[k])
    ensures item.id !in m && item.id == 0 ==>
      && o.response == Created(Location(generated), item.(id := generated))
      && o.store.Keys == m.Keys + {generated}
      && o.store[generated] == item.(id := generated)
      && (forall k :: k in m ==> o.store[k] == m[k])
    ensures Keyed(m) ==> Keyed(o.store)
  {
    match FirstOrDefault(m, item.id)
    case Some(_) => Outcome(m, BadRequest)
    case None =>
      var saved := item.(id := InsertedKey(item, generated));
      Outcome(m[saved.id := saved], Created(Location(saved.id), saved))
  }

  /** GET /items/{id}: the stored row, or 404. */
  function GetById(m: Table, id: int): (r: Response)
    ensures Keyed(m) ==> (r == NotFound <==> !StoresId(m, id))
    ensures r == NotFound || (id in m && r == Ok(m[id]))
    ensures Keyed(m) && r.Ok? ==> r.item.id == id
  {
    match FirstOrDefault(m, id)
    case None => NotFound
    case Some(row) => Ok(row)
  }

  /**
   * PUT /items/{id}: refuse (400, not 404) an id that is not stored; otherwise
   * overwrite title and completion flag of the stored row, keep its id, and
   * answer with the submitted body.
   */
  function Put(m: Table, id: int, body: Item): (o: Outcome)
    ensures Keyed(m) ==> (o.response == BadRequest <==> !StoresId(m, id))
    ensures id !in m ==> o == Outcome(m, BadRequest)
    ensures id in m ==>
      && o.response == Ok(body)
      && o.store.Keys == m.Keys
      && o.store[id] == Item(m[id].id, body.title, body.isCompleted)
      && (forall k :: k in m && k != id ==> o.store[k] == m[k])
    ensures Keyed(m) ==> Keyed(o.store)
    ensures Keyed(m) && id in m ==> o.store[id].id == id
  {
    match FirstOrDefault(m, id)
    case None => Outcome(m, BadRequest)
    case Some(existing) =>
      var updated := existing.(title := body.title, isCompleted := body.isCompleted);
      Outcome(m[id := updated], Ok(body))
  }

  /** DELETE /items/{id}: refuse (400, not 404) an id that is not stored; otherwise remove it. */
  function Delete(m: Table, id: int): (o: Outcome)
    ensures Keyed(m) ==> (o.response == BadRequest <==> !StoresId(m, id))
    ensures id !in m ==> o == Outcome(m, BadRequest)
    ensures id in m ==>
      && o.response == NoContent
      && o.store.Keys == m.Keys - {id}
      && (forall k :: k in o.store ==> o.store[k] == m[k])
    ensures Keyed(m) ==> Keyed(o.store)
  {
    match FirstOrDefault(m, id)
    case None => Outcome(m, BadRequest)
    case Some(_) => Outcome(m - {id}, NoContent)
  }

  /**
   * A listing of the table: every listed row is stored, every stored row is
   * listed, and no id is listed twice. No order is implied.
   */
  ghost predicate ListsExactly(rows: seq<Item>, m: Table) {
    && (forall i :: 0 <= i < |rows| ==> IsStored(m, rows[i]))
    && (forall k :: k in m ==> m[k] in rows)
    && (forall i, j :: 0 <= i < j < |rows| ==> rows[i].id != rows[j].id)
  }

  lemma {:induction false} DistinctIdsOccurOnce(rows: seq<Item>, x: Item)
    requires forall i, j :: 0 <= i < j < |rows| ==> rows[i].id != rows[j].id
    ensures multiset(rows)[x] == if x in rows then 1 else 0
  {
    if rows != [] {
      assert rows == [rows[0]] + rows[1..];
      DistinctIdsOccurOnce(rows[1..], x);
      if x == rows[0] {
        assert x !in rows[1..];
      }
    }
  }

  /** A listing holds each stored row exactly once, and nothing else: the stored rows as a multiset. */
  lemma ListingIsStoredMultiset(rows: seq<Item>, m: Table, x: Item)
    requires ListsExactly(rows, m)
    ensures multiset(rows)[x] == if IsStored(m, x) then 1 else 0
  {
    DistinctIdsOccurOnce(rows, x);
  }

  /**
   * A request to one of the five /items routes. A POST carries the key the
   * database generates if it inserts a row with id 0.
   */
  datatype Request =
    | ListAll
    | Create(item: Item, generated: int)
    | Read(id: int)
    | Update(id: int, body: Item)
    | Remove(id: int)

  /** The database never generates a key already in use. */
  predicate Fits(m: Table, req: Request) {
    req.Create? ==> req.generated !in m
  }

  /** The table after one request. */
  function Apply(m: Table, req: Request): Table
    requires Fits(m, req)
  {
    match req
    case ListAll => m
    case Create(item, generated) => Post(m, item, generated).store
    case Read(_) => m
    case Update(id, body) => Put(m, id, body).store
    case Remove(id) => Delete(m, id).store
  }

  /** Each request of the sequence fits the table it meets. */
  predicate Admissible(m: Table, reqs: seq<Request>)
    decreases |reqs|
  {
    reqs == [] || (Fits(m, reqs[0]) && Admissible(Apply(m, reqs[0]), reqs[1..]))
  }

  /** The table after a sequence of requests, handled one after another. */
  function Replay(m: Table, reqs: seq<Request>): Table
    requires Admissible(m, reqs)
    decreases |reqs|
  {
    if reqs == [] then m else Replay(Apply(m, reqs[0]), reqs[1..])
  }

  /** No sequence of requests breaks the key/id correspondence of the table. */
  lemma {:induction false} ReplayKeepsKeyed(m: Table, reqs: seq<Request>)
    requires Keyed(m) && Admissible(m, reqs)
    ensures Keyed(Replay(m, reqs))
    decreases |reqs|
  {
    if reqs != [] {
      ReplayKeepsKeyed(Apply(m, reqs[0]), reqs[1..]);
    }
  }

  /**
   * A key present after a sequence of requests but not before was inserted by
   * a POST: of an item with that id, or of an item with id 0 for which the
   * database generated that key.
   */
  lemma {:induction false} ReplayInsertsOnlyByPost(m: Table, reqs: seq<Request>, k: int)
    requires Admissible(m, reqs)
    requires k in Replay(m, reqs) && k !in m
    ensures exists i :: 0 <= i < |reqs| && reqs[i].Create? && InsertedKey(reqs[i].item, reqs[i].generated) == k
    decreases |reqs|
  {
    var next := Apply(m, reqs[0]);
    if k in next {
      assert reqs[0].Create? && InsertedKey(reqs[0].item, reqs[0].generated) == k;
    } else {
      ReplayInsertsOnlyByPost(next, reqs[1..], k);
      var i :| 0 <= i < |reqs[1..]| && reqs[1..][i].Create? && InsertedKey(reqs[1..][i].item, reqs[1..][i].generated) == k;
      assert reqs[i + 1] == reqs[1..][i];
    }
  }

  /**
   * A POST of a fresh item followed by a GET of the key it was stored under
   * returns the saved item; for id 0 that key is the generated one, and a
   * GET of 0 still answers 404.
   */
  lemma PostThenGet(m: Table, item: Item, generated: int)
    requires item.id !in m && generated !in m
    ensures GetById(Post(m, item, generated).store, InsertedKey(item, generated))
      == Ok(item.(id := InsertedKey(item, generated)))
    ensures item.id == 0 && generated != 0 ==> GetById(Post(m, item, generated).store, 0) == NotFound
  {
  }

  /** A PUT on a stored id followed by a GET of that id shows the new title and flag under the old id. */
  lemma PutThenGet(m: Table, id: int, body: Item)
    requires Keyed(m) && id in m
    ensures GetById(Put(m, id, body).store, id) == Ok(Item(id, body.title, body.isCompleted))
  {
  }

  /** A DELETE of a stored id followed by a GET of that id answers 404; a second DELETE answers 400. */
  lemma DeleteThenGet(m: Table, id: int)
    requires id in m
    ensures GetById(Delete(m, id).store, id) == NotFound
    ensures Delete(Delete(m, id).store, id).response == BadRequest
  {
  }
}
