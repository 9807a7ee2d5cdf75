/**
 * The database context and the five /items route handlers. The `Items` set of
 * the context is a map field keyed by the primary key; each handler receives
 * the context, looks the id up, changes the table in place and answers with a
 * response. Committing the change is the assignment to the field itself.
 */
module TodoApi {
  import opened TodoModel

  class ApiDbContext {
    var items: Table

    /** Every row is stored under its own id (the table's primary key). */
    ghost predicate Valid()
      reads this
    {
      Keyed(items)
    }

    /** A context over the rows already in the database file. */
    constructor (rows: Table)
      requires Keyed(rows)
      ensures Valid() && items == rows
    {
      items := rows;
    }
  }

  /**
   * A non-empty set of keys has a member to pick. This only discharges the
   * choice of the next key in `GetItems`; it says nothing about the table.
   */
  lemma NonEmptyHasMember(keys: set<int>)
    requires keys != {}
    ensures exists k :: k in keys
  {
    if forall k :: k !in keys {
      assert false;
    }
  }

  /**
   * GET /items: enumerate the table into a list. Each stored row appears
   * once, in no promised order; the table is not changed.
   */
  method GetItems(db: ApiDbContext) returns (r: Response)
    requires db.Valid()
    ensures r.OkList? && ListsExactly(r.items, db.items)
    ensures |r.items| == |db.items|
    ensures forall x :: multiset(r.items)[x] == if IsStored(db.items, x) then 1 else 0
  {
    var rows: seq<Item> := [];
    var pending := db.items.Keys;
    while pending != {}
      invariant pending <= db.items.Keys
      invariant |rows| + |pending| == |db.items.Keys|
      invariant forall i :: 0 <= i < |rows| ==> IsStored(db.items, rows[i]) && rows[i].id !in pending
      invariant forall k :: k in db.items && k !in pending ==> db.items[k] in rows
      invariant forall i, j :: 0 <= i < j < |rows| ==> rows[i].id != rows[j].id
      decreases pending
    {
      NonEmptyHasMember(pending);
      var k :| k in pending;
      rows := rows + [db.items[k]];
      pending := pending - {k};
    }
    r := OkList(rows);
    forall x ensures multiset(rows)[x] == if IsStored(db.items, x) then 1 else 0 {
      ListingIsStoredMultiset(rows, db.items, x);
    }
  }

  /**
   * POST /items: 400 for an id already stored, otherwise add the row and
   * answer 201. `generated` is the key the database assigns on the save when
   * the item's id is 0; the save writes it back into the item.
   */
  method PostItem(db: ApiDbContext, item: Item, generated: int) returns (r: Response)
    requires db.Valid() && generated !in db.items
    modifies db
    ensures db.Valid()
    ensures Outcome(db.items, r) == Post(old(db.items), item, generated)
  {
    var existing := FirstOrDefault(db.items, item.id);
    if existing.Some? {
      return BadRequest;
    }
    var saved := item;
    if saved.id == 0 {
      saved := saved.(id := generated);
    }
    db.items := db.items[saved.id := saved];
    r := Created(Location(saved.id), saved);
  }

  /** GET /items/{id}: 404 when no stored row has the id, otherwise 200 with the row. */
  method GetItem(db: ApiDbContext, id: int) returns (r: Response)
    requires db.Valid()
    ensures r == GetById(db.items, id)
  {
    var row := FirstOrDefault(db.items, id);
    if row.None? {
      return NotFound;
    }
    r := Ok(row.value);
  }

  /**
   * PUT /items/{id}: 400 when the id is not stored; otherwise copy title and
   * flag of the body onto the stored row and answer 200 with the body.
   */
  method PutItem(db: ApiDbContext, id: int, body: Item) returns (r: Response)
    requires db.Valid()
    modifies db
    ensures db.Valid()
    ensures Outcome(db.items, r) == Put(old(db.items), id, body)
  {
    var existing := FirstOrDefault(db.items, id);
    if existing.None? {
      return BadRequest;
    }
    var row := existing.value;
    row := row.(title := body.title);
    row := row.(isCompleted := body.isCompleted);
    db.items := db.items[id := row];
    r := Ok(body);
  }

  /** DELETE /items/{id}: 400 when the id is not stored; otherwise remove the row and answer 204. */
  method DeleteItem(db: ApiDbContext, id: int) returns (r: Response)
    requires db.Valid()
    modifies db
    ensures db.Valid()
    ensures Outcome(db.items, r) == Delete(old(db.items), id)
  {
    var existing := FirstOrDefault(db.items, id);
    if existing.None? {
      return BadRequest;
    }
    db.items := db.items - {existing.value.id};
    r := NoContent;
  }

  /**
   * Create, read, complete and delete one item, then read it again: the
   * status codes and the Location header that sequence produces.
   */
  method Walkthrough() returns (codes: seq<int>, location: string, first: Item)
    ensures codes == [201, 200, 200, 204, 404]
    ensures location == "/Items/1"
    ensures first == Item(1, "Go to the gym", false)
  {
    var db := new ApiDbContext(map[]);
    var gym := Item(1, "Go to the gym", false);
    var created := PostItem(db, gym, 7);
    var read := GetItem(db, 1);
    var updated := PutItem(db, 1, gym.(isCompleted := true));
    assert db.items[1].isCompleted;
    var deleted := DeleteItem(db, 1);
    var gone := GetItem(db, 1);
    codes := [created.StatusCode(), read.StatusCode(), updated.StatusCode(), deleted.StatusCode(), gone.StatusCode()];
    location := created.location;
    first := read.item;
  }

  /**
   * POST an item with id 0 next to a stored item 1, the database generating
   * key 2: the item is created as item 2, and id 0 stays unknown.
   */
  method GeneratedKeyWalkthrough() returns (codes: seq<int>, location: string, saved: Item)
    ensures codes == [201, 200, 404]
    ensures location == "/Items/2" && saved == Item(2, "Drink Water", true)
  {
    var db := new ApiDbContext(map[1 := Item(1, "Go to the gym", false)]);
    var created := PostItem(db, Item(0, "Drink Water", true), 2);
    var read := GetItem(db, 2);
    var zero := GetItem(db, 0);
    codes := [created.StatusCode(), read.StatusCode(), zero.StatusCode()];
    location := created.location;
    saved := read.item;
  }
}
