# Todo minimal API: the /items route handlers

This project models the five `/items` route handlers of a minimal ASP.NET Core
todo service (`v52-minimalAPi/TodoApi/Program.cs`). The service stores `Item`
rows (`id`, `title`, `isCompleted`) in one database table. It lists them,
creates one unless its id is taken, reads one, updates the title and flag of
one, and deletes one. Each request gets an HTTP status code.

`Id` is the table's key by Entity Framework's naming convention, and no
configuration changes that, so the database generates its value on insert.
A POST with id 0 (the default of an `int`, and what a body without an id
binds to) therefore does not store a row 0. The row is inserted under a key
the database generates, and the save writes that key back into the item. So
the answer is 201 with `/Items/{generated}` and the item carrying that key.
Any other id is inserted as given.

The model has three modules:

- `Decimal` renders an `int` as decimal text, for the `Location` header
  `/Items/{id}`. It also parses that text back, which proves that distinct ids
  give distinct headers.
- `TodoModel` is the pure specification of the handlers over the table
  (`map<int, Item>`, keyed by the primary key). POST, GET by id, PUT and
  DELETE are functions from the table before the request to the response and,
  for the three that write, the table after it. GET /items is specified by the
  predicate `ListsExactly`, because no order of the listing is promised. Beside
  these are the lemmas that relate several requests: replaying any sequence of
  requests, and POST, PUT or DELETE followed by GET.
- `TodoApi` holds the database context as a class whose `items` map field
  stands for the `Items` table. The handlers are methods that take the context,
  as the source's lambdas do. POST, PUT and DELETE look the id up and then
  update the map in place; GET by id only looks it up. Each of these four is
  proved equal to its `TodoModel` function. `GetItems` enumerates the keys in a
  loop and is proved to satisfy `ListsExactly`, with each stored row listed
  exactly once. `SaveChangesAsync` is a commit with no further effect: the
  assignment to the field is the committed change.

These quirks of the source are kept as written:

- PUT and DELETE answer 400, not 404, for a missing id.
- PUT answers with the submitted body, not the stored row.
- PUT finds the row by the route id and never copies the body's id.

## Model

| member | source | states |
|---|---|---|
| `Decimal.FromNat` | v52-minimalAPi/TodoApi/Program.cs:87 | the digits of a non-negative id are canonical: at least one decimal digit, and a leading '0' only in the one-digit text of 0 |
| `Decimal.FromInt` | v52-minimalAPi/TodoApi/Program.cs:87 | the text of an id is canonical integer text (canonical digits, after a '-' only when the value is non-zero) and starts with '-' exactly when the id is negative |
| `Decimal.NatRoundTrip` | v52-minimalAPi/TodoApi/Program.cs:87 | reading back the digits of a natural number gives that number |
| `Decimal.IntRoundTrip` | v52-minimalAPi/TodoApi/Program.cs:87 | reading back the text of any integer, negative ones included, gives that integer |
| `Decimal.DigitsRoundTrip` | v52-minimalAPi/TodoApi/Program.cs:87 | canonical digits are the text of their own value |
| `Decimal.TextRoundTrip` | v52-minimalAPi/TodoApi/Program.cs:87 | every canonical integer text is the text of its value; with `IntRoundTrip`, each integer has exactly one canonical text, and that text is the one produced |
| `Decimal.FromIntInjective` | v52-minimalAPi/TodoApi/Program.cs:87 | distinct integers have distinct texts |
| `TodoModel.Location` | v52-minimalAPi/TodoApi/Program.cs:87 | the Location of a created item is "/Items/" followed by canonical integer text whose value is the id |
| `TodoModel.LocationInjective` | v52-minimalAPi/TodoApi/Program.cs:87 | two created items get the same Location if and only if they have the same id |
| `TodoModel.FirstOrDefault` | v52-minimalAPi/TodoApi/Program.cs:80 | on a keyed table, the lookup finds a row if and only if some stored row has that id; the row it finds is stored and has that id |
| `TodoModel.Post` | v52-minimalAPi/TodoApi/Program.cs:79-88 | 400 if and only if some stored row has the id, with the table unchanged. Otherwise, for a non-zero id: 201 with Location "/Items/{id}" and the submitted item, stored under its id. For id 0: 201 with Location "/Items/{generated}" and the item carrying the generated key, stored under that key. Every other row is unchanged, and the table stays keyed |
| `TodoModel.GetById` | v52-minimalAPi/TodoApi/Program.cs:90-95 | 404 if and only if no stored row has the id; otherwise 200 with the row stored under that id, whose id is the requested one |
| `TodoModel.Put` | v52-minimalAPi/TodoApi/Program.cs:97-110 | 400 if and only if no stored row has the route id, with no row created; otherwise 200 with the submitted body; the stored row keeps its id and takes only the body's title and flag; no key is added or removed and every other row is unchanged |
| `TodoModel.Delete` | v52-minimalAPi/TodoApi/Program.cs:112-123 | 400 if and only if no stored row has the id, with the table unchanged; otherwise 204; exactly that key is removed and every remaining row is unchanged |
| `TodoModel.ListingIsStoredMultiset` | v52-minimalAPi/TodoApi/Program.cs:74-77 | a listing of the table holds each stored row exactly once and nothing else |
| `TodoModel.ReplayKeepsKeyed` | v52-minimalAPi/TodoApi/Program.cs:79-123 | after any sequence of handled requests, every row is still stored under its own id, so ids stay unique |
| `TodoModel.ReplayInsertsOnlyByPost` | v52-minimalAPi/TodoApi/Program.cs:79-88 | a key present after a sequence of requests but absent before it was added by a POST, either of an item with that id or of an item with id 0 for which the database generated that key |
| `TodoModel.PostThenGet` | v52-minimalAPi/TodoApi/Program.cs:79-95 | a POST of a fresh item followed by a GET of the key it was stored under returns the saved item; after a POST of id 0, a GET of 0 still answers 404 (unless the database generated 0 itself) |
| `TodoModel.PutThenGet` | v52-minimalAPi/TodoApi/Program.cs:90-110 | after a PUT on a stored id, a GET of that id returns the route id with the body's title and flag |
| `TodoModel.DeleteThenGet` | v52-minimalAPi/TodoApi/Program.cs:90-123 | after a DELETE of a stored id, a GET of that id answers 404 and a second DELETE answers 400 |
| `TodoApi.ApiDbContext.constructor` | v52-minimalAPi/TodoApi/Program.cs:168-175 | a context opened over a keyed table holds exactly that table |
| `TodoApi.GetItems` | v52-minimalAPi/TodoApi/Program.cs:74-77 | 200 with a list that holds every stored row once and nothing else, as a multiset, in no promised order; the list has as many entries as the table has rows |
| `TodoApi.PostItem` | v52-minimalAPi/TodoApi/Program.cs:79-88 | the response and the new table are those of `TodoModel.Post` on the old table and the database's generated key, and the table stays keyed |
| `TodoApi.GetItem` | v52-minimalAPi/TodoApi/Program.cs:90-95 | the response is that of `TodoModel.GetById` on the table, and nothing changes |
| `TodoApi.PutItem` | v52-minimalAPi/TodoApi/Program.cs:97-110 | the response and the new table are those of `TodoModel.Put` on the old table, and the table stays keyed |
| `TodoApi.DeleteItem` | v52-minimalAPi/TodoApi/Program.cs:112-123 | the response and the new table are those of `TodoModel.Delete` on the old table, and the table stays keyed |
| `TodoApi.Walkthrough` | v52-minimalAPi/TodoApi/Program.cs:79-123 | on an empty table, POST item 1, GET 1, PUT 1 (completed), DELETE 1 and GET 1 answer 201, 200, 200, 204 and 404; the Location is "/Items/1" and the first GET returns item 1 as posted |
| `TodoApi.GeneratedKeyWalkthrough` | v52-minimalAPi/TodoApi/Program.cs:79-95 | next to a stored item 1, a POST of id 0 for which the database generates 2 answers 201 with "/Items/2"; GET 2 returns the item as item 2, and GET 0 answers 404 |

## Left out

- Entity Framework Core and SQLite (Program.cs:12-14, 168-175): the table is an in-memory map. A failure of `SaveChangesAsync` (disk, constraint) is not modelled, so every commit succeeds.
- Change tracking and object identity: rows are values. The handlers' effect on the table is the same. What is lost is that the tracked `Item` object is shared with other code in the same request.
- Async/await and concurrent requests: requests are handled one after another. The race between two concurrent POSTs with the same id, which the existence check does not prevent, is not modelled.
- JSON binding and serialisation: a request body is an `Item` value, and a missing or null `Title` is not represented. The HTTP listener (Program.cs:128) is not part of this model.
- The Swagger/OpenAPI metadata and the declared, unenforced JWT bearer scheme (Program.cs:16-69, 125-126) have no effect on the handlers. The greeting route (Program.cs:127) is left out too.
- The commented-out `ItemRepository` (Program.cs:139-166) is not compiled in the source.
- The generated key is an input to `Post` and `PostItem`. The model assumes only that it is not already a key in the table. How SQLite picks it (one more than the largest key, with or without AUTOINCREMENT history) is not modelled.
- Ids are unbounded integers, not 32-bit `int`. The handlers do no arithmetic on ids, so only the range of possible inputs differs.
- `Decimal.FromInt` renders negative ids with an ASCII '-' and ASCII digits. This is the invariant-culture format; a culture with another negative sign is not modelled.
- `TodoModel.FirstOrDefault` looks the id up as a key rather than scanning rows for `Id == id`. Its contract proves the two agree on every keyed table, and every handler keeps the table keyed.
