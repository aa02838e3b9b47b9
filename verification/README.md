# Todo controller model

This project models the todo request handlers of a small CRUD HTTP backend
(`umm3601.todo.TodoController`). The handlers turn HTTP request data into
operations on a MongoDB `todos` collection:

- list todos, filtered by `owner`, `category`, `status` and `body`, sorted by
  `sortby`/`sortorder` and capped by `limit`;
- list todos by a `status` of `"complete"` or anything else;
- fetch one todo by its ObjectId;
- create a todo after validating its request body;
- delete a todo by its ObjectId;
- render an MD5 digest as lowercase hex.

In the model the collection is an in-memory sequence of documents held by the
class `TodoServer.TodoController`. Fresh ObjectIds come from a counter field of
the same class. Each handler is a method that takes the request data it reads
and returns the response it would send. The list handler takes the query
parameters as a map, the status handler the one `status` parameter, the id
handlers the path id, and the create handler the raw request body and its
deserialised payload. A response is a `Response` value: `Ok`, `Created`,
`BadRequest`, `NotFound`, or `ServerError` for an exception the controller
does not catch.

Modules:

- `Options`: the `Option` type.
- `Text`: ASCII case folding, `equalsIgnoreCase`, substring containment with
  and without case, and `Integer.parseInt`.
- `Hex`: two-digit lowercase hex rendering of bytes (`%02x`) and hex parsing.
- `ObjectIds`: 12-byte ObjectIds, `new ObjectId(String)`, `toHexString()`, and
  generated ids.
- `Todos`: the todo document and the create payload, which documents a set of
  query parameters selects, the filter document and what the store does with
  it, lookup and deletion by `_id`.
- `Sorting`: sort specifications, MongoDB's cross-type value order, sorting and
  `limit`.
- `TodoServer`: the controller, its filter and sort construction, the
  validation of created todos, and the `md5` hex loop.
- `Scenarios`: concrete requests against a four-todo collection, and
  consequences of the handler contracts across calls.

Where the code and its Javadoc disagree, the model follows the code:

- `constructSortingOrder`'s comment says `sortby` defaults to `"name"`; the
  code defaults to `"owner"`, and so does the model.
- The Javadoc of `constructFilter` speaks of `age`, `company` and `role`; the
  code filters on `owner`, `category`, `status` and `body`.

Two inconsistencies of the code are kept as written:

- The list endpoint reads `status` with `Boolean.parseBoolean`, so `"true"`
  in any case means true. The status endpoint treats only `"complete"` in any
  case as true.
- `deleteTodoByID` does not catch the exception of a malformed id, unlike
  `getTodoByID`.

## Model

| member | source | states |
|---|---|---|
| TodoServer.ConstructFilter | server/src/main/java/umm3601/todo/TodoController.java:143-165 | The filter is the empty document exactly when no filter key is present, otherwise 1 to 4 clauses. A document passes the filter exactly when it satisfies every present key's constraint (owner equal, category regex, status equal to its boolean reading, body containing the text ignoring case): soundness and completeness |
| TodoServer.ConstructSortingOrder | server/src/main/java/umm3601/todo/TodoController.java:183-188 | Sort field is `sortby`, defaulting to `owner`; descending exactly when `sortorder` is present and equals `"desc"` exactly |
| TodoServer.ParseLimit | server/src/main/java/umm3601/todo/TodoController.java:96 | A missing `limit` fails to parse; a present one reads exactly as `Integer.parseInt` reads ASCII text (see `Text.ParseIntOfDigits`), within the 32-bit int range |
| TodoServer.StatusFromParam | server/src/main/java/umm3601/todo/TodoController.java:115-116 | The status asked for is true exactly when the parameter is present and lower-cases to `"complete"`; an absent parameter means false |
| TodoServer.ValidationErrors | server/src/main/java/umm3601/todo/TodoController.java:214-222 | No errors exactly when owner, category and body are all present and non-empty. There is one message per failing check and no other: each appears exactly when its check fails. They come in declaration order: owner first, category only after owner, body last. Status is not checked |
| TodoServer.Md5 | server/src/main/java/umm3601/todo/TodoController.java:278-287 | The loop's output is the hex of the digest: twice as long, the two characters at 2i..2i+2 are byte i's hex, all characters lowercase hex digits, and it parses back to the digest |
| TodoServer.TodoController.constructor | server/src/main/java/umm3601/todo/TodoController.java:54-60 | A controller over an existing collection whose ids are unique: it starts with exactly those documents and its invariant established (the collection binding itself is left out) |
| TodoServer.TodoController.GetTodoByID | server/src/main/java/umm3601/todo/TodoController.java:69-84 | Malformed id gives 400 with the fixed message; a well-formed id no document has gives 404 with the fixed message; otherwise 200 with a stored document carrying that id |
| TodoServer.TodoController.GetTodos | server/src/main/java/umm3601/todo/TodoController.java:92-112 | A missing or non-integer limit is a server error, raised before the query. With a valid limit, a query the driver cannot encode (a NUL character in the `category` or `body` pattern or in the sort field) or the server refuses (an uncompilable `category` pattern or a disallowed sort field) is a server error. Otherwise 200: every returned document is stored and selected by the filter parameters. The result is a sub-multiset of the selection, sorted by the chosen order, of size min(selected, limit) for a positive limit, the whole selection for limit 0, at most -limit for a negative one; every selected document left out sorts after every one returned |
| TodoServer.TodoController.GetTodosByStatus | server/src/main/java/umm3601/todo/TodoController.java:114-127 | Always 200. Each document occurs in the result exactly as often as in the collection when it holds a status equal to the status asked for, and not at all otherwise (a document without a status never matches) |
| TodoServer.TodoController.AddNewTodo | server/src/main/java/umm3601/todo/TodoController.java:212-238 | Validation failure gives 400 with the error list and leaves the store unchanged. Otherwise exactly one document with the payload's fields and a fresh id is appended and 201 answers its hex id; the unique-id invariant is kept |
| TodoServer.TodoController.DeleteTodoByID | server/src/main/java/umm3601/todo/TodoController.java:245-257 | A malformed id is an uncaught error and changes nothing. Otherwise the store loses the first document with that id and keeps the rest in order; 200 when one was deleted, else 404 with the message naming the id; ids stay unique |
| Todos.ParseBoolean | server/src/main/java/umm3601/todo/TodoController.java:153 | `Boolean.parseBoolean` is true exactly when the text lower-cases to `"true"`, so only for four-character texts |
| Todos.SelectsAllWithoutFilterKeys | server/src/main/java/umm3601/todo/TodoController.java:162 | Without any filter key every document is selected |
| Todos.SelectsIsConjunction | server/src/main/java/umm3601/todo/TodoController.java:144-162 | The selection is the AND of the four one-key selections, and an absent key selects everything |
| Todos.SatisfiesAllAppend | server/src/main/java/umm3601/todo/TodoController.java:162 | `and` of a list with one more clause holds exactly when `and` of the list and the new clause both hold |
| Todos.Where | server/src/main/java/umm3601/todo/TodoController.java:99-100 | `find` returns no more documents than stored, each stored and accepted by the filter |
| Todos.WhereCount | server/src/main/java/umm3601/todo/TodoController.java:120-122 | `find` keeps each accepted document as many times as it is stored and drops every rejected one |
| Todos.WhereAgrees | server/src/main/java/umm3601/todo/TodoController.java:99-100 | Two filters that accept the same documents find the same result |
| Todos.MatchingAllWithoutFilterKeys | server/src/main/java/umm3601/todo/TodoController.java:162 | With the empty filter document the selection is the whole collection, in order |
| Todos.FirstIndex | server/src/main/java/umm3601/todo/TodoController.java:74 | The position found holds the id, and no earlier document has it |
| Todos.FindById | server/src/main/java/umm3601/todo/TodoController.java:74 | `find(eq("_id", id)).first()` is non-null exactly when some document has the id, and then is a stored document with that id |
| Todos.FindByIdIsUnique | server/src/main/java/umm3601/todo/TodoController.java:74 | With unique ids the document found is the one stored under that id |
| Todos.RemoveFirst | server/src/main/java/umm3601/todo/TodoController.java:247 | `deleteOne` leaves the collection unchanged when no document has the id; otherwise it is one shorter and lost exactly the document found |
| Todos.RemoveFirstKeepsOthers | server/src/main/java/umm3601/todo/TodoController.java:247-249 | Deleting keeps every document with another id and adds none |
| Todos.RemoveFirstRemovesId | server/src/main/java/umm3601/todo/TodoController.java:247-249 | With unique ids, after deletion no document has the id and ids stay unique |
| Sorting.LexLeTotal | server/src/main/java/umm3601/todo/TodoController.java:186 | Any two sort keys are comparable |
| Sorting.LexLeTransitive | server/src/main/java/umm3601/todo/TodoController.java:186 | Key order is transitive |
| Sorting.PrecedesTotal | server/src/main/java/umm3601/todo/TodoController.java:186 | For either direction, of two documents one may come first |
| Sorting.PrecedesTransitive | server/src/main/java/umm3601/todo/TodoController.java:186 | For either direction, document order is transitive |
| Sorting.SortKey | server/src/main/java/umm3601/todo/TodoController.java:186 | The key a document sorts by on a field starts with the BSON type rank of the field's value: null for an absent string field or status, string, ObjectId for `_id`, boolean; a field todos do not have sorts every document as null |
| Sorting.CharsKeyOrder | server/src/main/java/umm3601/todo/TodoController.java:186 | String keys compare exactly as the strings compare: a prefix first, else by the first differing character |
| Sorting.StringFieldOrder | server/src/main/java/umm3601/todo/TodoController.java:186 | On owner, category or body, two present values sort as strings, and a document without the field sorts strictly before one with it |
| Sorting.Limit | server/src/main/java/umm3601/todo/TodoController.java:102 | `.limit(n)` keeps a prefix: min(size, n) documents for n > 0, all of them for n = 0, min(size, -n) for n < 0 |
| Sorting.Insert | server/src/main/java/umm3601/todo/TodoController.java:101 | Inserting into a sorted result keeps it sorted and adds exactly that document |
| Sorting.SortTodos | server/src/main/java/umm3601/todo/TodoController.java:101 | `sort` returns a sorted permutation of its input |
| Sorting.SortedPrefix | server/src/main/java/umm3601/todo/TodoController.java:102 | A prefix of a sorted result is sorted, the rest is what is left out, and everything left out sorts after everything kept |
| Sorting.LimitSortedSpec | server/src/main/java/umm3601/todo/TodoController.java:101-102 | `sort` then `limit(n)` is sorted and drawn from the input; of size min(size, n) for n > 0, everything for n = 0, at most -n for n < 0; and what is cut off sorts after what is kept |
| Text.LowerChar | server/src/main/java/umm3601/todo/TodoController.java:116 | An upper-case ASCII letter folds to the lower-case letter at the same place in the alphabet; every other character is unchanged |
| Text.LowerIsLowercase | server/src/main/java/umm3601/todo/TodoController.java:116 | Lower-casing leaves no upper-case ASCII letter, changes nothing in a string without one, and is idempotent |
| Text.EqualsIgnoreCaseIsLowerEquality | server/src/main/java/umm3601/todo/TodoController.java:116 | `equalsIgnoreCase` holds exactly when the lower-cased strings are equal |
| Text.ContainsIgnoreCaseIsContainsLowered | server/src/main/java/umm3601/todo/TodoController.java:157 | A quoted, case-insensitive pattern finds a match exactly when the lower-cased text contains the lower-cased pattern |
| Text.ParseInt | server/src/main/java/umm3601/todo/TodoController.java:96 | `Integer.parseInt` gives an int in range; it fails on the empty string, a lone sign, a bad first character or a non-digit after it |
| Text.DigitsValueOfNatString | server/src/main/java/umm3601/todo/TodoController.java:96 | The digits of a number read back as that number |
| Text.ParseIntOfIntString | server/src/main/java/umm3601/todo/TodoController.java:96 | Every int's decimal form parses back to it |
| Text.ParseIntOfDigits | server/src/main/java/umm3601/todo/TodoController.java:96 | A digit string, bare or after `+`, leading zeros allowed, parses to its value when that fits in 32 bits, and fails when it does not |
| Text.ParseIntOfNegativeDigits | server/src/main/java/umm3601/todo/TodoController.java:96 | A digit string after `-` parses to its negated value when that fits in 32 bits, and fails when it does not |
| Hex.HexDigit | server/src/main/java/umm3601/todo/TodoController.java:284 | A hex digit is a decimal digit or a lowercase letter a-f |
| Hex.DigitValue | server/src/main/java/umm3601/todo/TodoController.java:74 | A hex character's value is below 16 |
| Hex.DigitValueOfHexDigit | server/src/main/java/umm3601/todo/TodoController.java:284 | The digit written for a value below 16 reads back as that value |
| Hex.ByteHex | server/src/main/java/umm3601/todo/TodoController.java:284 | `%02x` writes exactly two characters |
| Hex.ParseByte | server/src/main/java/umm3601/todo/TodoController.java:74 | Two characters parse to a byte exactly when both are hex characters |
| Hex.HexOfBytes | server/src/main/java/umm3601/todo/TodoController.java:282-285 | The hex of n bytes is 2n characters long |
| Hex.ParseHex | server/src/main/java/umm3601/todo/TodoController.java:74 | A string parses as hex exactly when it has even length and only hex characters, giving half as many bytes |
| Hex.HexOfBytesAt | server/src/main/java/umm3601/todo/TodoController.java:283-285 | Byte i contributes characters 2i and 2i+1, in order |
| Hex.HexOfBytesIsLowercase | server/src/main/java/umm3601/todo/TodoController.java:284 | The hex of any bytes is lowercase hex digits only |
| Hex.ParseByteOfByteHex | server/src/main/java/umm3601/todo/TodoController.java:284 | A byte's two digits parse back to it |
| Hex.ParseHexOfBytes | server/src/main/java/umm3601/todo/TodoController.java:282-286 | The hex of any bytes parses back to them |
| Hex.ByteHexOfParseByte | server/src/main/java/umm3601/todo/TodoController.java:74 | Two hex characters, parsed and written again, are their lower-cased selves |
| Hex.HexOfParseHex | server/src/main/java/umm3601/todo/TodoController.java:74 | A hex string, parsed and written again, is its lower-cased self |
| ObjectIds.ParseObjectId | server/src/main/java/umm3601/todo/TodoController.java:74 | `new ObjectId(s)` succeeds exactly for 24 hex characters, giving a 12-byte id |
| ObjectIds.ToHexString | server/src/main/java/umm3601/todo/TodoController.java:232 | An id's hex form has 24 characters |
| ObjectIds.ParseToHexString | server/src/main/java/umm3601/todo/TodoController.java:232 | The hex form of an id parses back to that id |
| ObjectIds.ToHexStringOfParse | server/src/main/java/umm3601/todo/TodoController.java:74 | A parsed id's hex form is the input lower-cased |
| ObjectIds.BigEndian | server/src/main/java/umm3601/todo/TodoController.java:226 | Encoding a number in k bytes gives k bytes |
| ObjectIds.ValueOfBigEndian | server/src/main/java/umm3601/todo/TodoController.java:226 | A number below 256^k encoded in k bytes reads back as itself |
| ObjectIds.NewObjectId | server/src/main/java/umm3601/todo/TodoController.java:226 | A generated id has twelve bytes |
| ObjectIds.IdValueOfNewObjectId | server/src/main/java/umm3601/todo/TodoController.java:226 | The nth generated id stands for n modulo the id space, never more than n; below the id space it stands for n itself, so generated ids never repeat |
| TodoServer.GeneratedIdBelowCounter | server/src/main/java/umm3601/todo/TodoController.java:226 | The id generated from the counter stands for no more than the counter, and while the counter is below the id space no stored document has it |
| TodoServer.AppendKeepsDistinct | server/src/main/java/umm3601/todo/TodoController.java:226 | Inserting a document whose id is new keeps the `_id` index unique |
| Scenarios.OwnerFryScenario | server/src/main/java/umm3601/todo/TodoController.java:146-147 | `owner=Fry` selects exactly Fry's todo |
| Scenarios.BodyScenario | server/src/main/java/umm3601/todo/TodoController.java:156-158 | `body=DO 3601 HOMEWORK` selects exactly Dawn's todo, ignoring case |
| Scenarios.CategoryScenario | server/src/main/java/umm3601/todo/TodoController.java:149-150 | `category=homework` with a literal pattern selects the three homework todos in collection order |
| Scenarios.StatusRulesDisagree | server/src/main/java/umm3601/todo/TodoController.java:114-154 | The list endpoint reads `TRUE` as true and `complete` as false; the status endpoint reads `Complete` as true and `true` as false; no parameter means false |
| Scenarios.SortOrderScenario | server/src/main/java/umm3601/todo/TodoController.java:183-188 | No parameters sort ascending by owner; `DESC` sorts ascending; `desc` with `sortby=category` sorts descending by category |
| Scenarios.AbsentIdScenario | server/src/main/java/umm3601/todo/TodoController.java:74 | `588935f5c668650dc77df581` is a well-formed id that no sample todo has |
| Scenarios.GetByIdScenario | server/src/main/java/umm3601/todo/TodoController.java:69-84 | Get-by-id answers 400 for `bad` and 404 for the absent well-formed id |
| Scenarios.RejectedPatternScenario | server/src/main/java/umm3601/todo/TodoController.java:99-103 | With `limit=5`, a `category` pattern `(` that does not compile makes the list request a server error whatever the store holds |
| Scenarios.NulBodyScenario | server/src/main/java/umm3601/todo/TodoController.java:156-158 | With `limit=5`, a `body` text holding a NUL character makes the list request a server error |
| Scenarios.PlainListScenario | server/src/main/java/umm3601/todo/TodoController.java:92-103 | With only `limit=5` and a server that allows sorting on `owner`, the list request answers 200 with every stored document when there are at most five |
| Scenarios.CreateThenGet | server/src/main/java/umm3601/todo/TodoController.java:212-238 | A valid create answers 201, and getting the id it answered returns a todo with the payload's fields and that id |
| Scenarios.DeleteTwice | server/src/main/java/umm3601/todo/TodoController.java:245-257 | Deleting the same well-formed id twice answers 404 the second time, and the store lost only the first match |

## Left out

- HTTP and JSON: Javalin's `Context`, the routes of `addRoutes` (lines 316-336), setting status codes and JSON (de)serialisation. A handler returns a `Response` value instead. A body that does not deserialise into a todo is not modelled: the payload arrives already deserialised.
- MongoDB: the constructor's collection binding (lines 54-60) and query execution. The collection is an in-memory sequence, and `find`, `sort`, `limit`, `insertOne` and `deleteOne` are functions on it.
- Regular expressions: the `category` value is handed to the store as a regular expression. The model keeps the match test as a parameter `regex`, so the filter properties hold for every match semantics of the patterns the server accepts. Whether a pattern compiles is the parameter `compiles` of the list handler. The scenarios use a literal pattern read as a case-sensitive substring.
- Encoding: a NUL character is the one value the model treats as unencodable in a pattern or a field name; other driver-side encoding limits (document size and the like) are not modelled.
- Sort fields: which `sortby` values the server refuses (an empty name, a `$` prefix and the like) is the parameter `validField` of the list handler, not a fixed rule.
- Non-boolean statuses: a stored `status` is modelled as a boolean or absent (null). A document whose `status` holds a string or another type cannot be represented. Such a document would match no `eq("status", b)` filter.
- Create payload: `Todo.java` is not part of this model. The payload's `status` is taken to deserialise to a plain boolean that defaults to false, and the stored document always holds it.
- Unicode: case folding (`equalsIgnoreCase`, the MongoDB server's case-insensitive matching of the `category` and `body` patterns, `toLowerCase`) is ASCII only; the server's caseless matching also folds non-ASCII letters. `Integer.parseInt`'s non-ASCII digits are not accepted.
- MD5: the digest of `str.toLowerCase()` in UTF-8 (lines 279-280) is the parameter `digest`. Only the hex loop is modelled.
- Id generation: the driver builds ObjectIds from a timestamp, a random value and a counter. The model encodes a per-controller counter in twelve big-endian bytes. A client-supplied `_id` in the create body is not modelled.
- Query parameters: a parameter given several times is read by its first value only. The map holds that value.
- Sort ties and missing fields: documents with equal sort keys come out in no promised order. A missing field sorts as null, before strings.
- TodoServer.TodoController.GetTodos: does not say which of several equally-ranked documents a limit keeps, and the negative-limit rule (at most -n documents, one batch) is stated only as an upper bound, because both are driver-defined.
- TodoServer.TodoController.AddNewTodo: on an id collision, which cannot happen while the counter (which starts one above the largest stored id's value) is below 256^12, the model answers a server error and the counter still advances. That error stands for the unique index refusing the insert.
