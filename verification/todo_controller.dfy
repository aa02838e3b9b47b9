/**
 * The todo request handlers. Each handler takes the request data it reads
 * (query parameters, path id, request body) and returns the response it
 * would send. The MongoDB collection is an in-memory sequence of documents
 * held by the controller.
 */
module TodoServer {
  import opened Options
  import opened Text
  import opened Hex
  import opened ObjectIds
  import opened Todos
  import opened Sorting

  /** Why a request ended in an exception the controller does not catch (HTTP 500). */
  datatype Failure =
    | LimitNotAnInteger  // NumberFormatException from Integer.parseInt
    | IllegalObjectId    // IllegalArgumentException from new ObjectId(id)
    | DuplicateKey       // the unique `_id` index refused an insert
    | QueryRejected      // the driver or the server refused a find: a bad `$regex` pattern or sort field

  /** A JSON response body. */
  datatype Body = One(todo: Todo) | Many(todos: seq<Todo>) | NoContent

  /** What a handler answers; the comment gives the HTTP status. */
  datatype Response =
    | Ok(body: Body)                     // 200
    | Created(id: string)                // 201, body {"id": id}
    | BadRequest(messages: seq<string>)  // 400
    | NotFound(message: string)          // 404
    | ServerError(failure: Failure)      // 500

  const SortByKey := "sortby"
  const SortOrderKey := "sortorder"
  const LimitKey := "limit"

  const IllegalIdMessage := "The requested todo id wasn't a legal Mongo Object ID."
  const TodoNotFoundMessage := "The requested todo was not found"

  function DeleteFailedMessage(id: string): string {
    "Was unable to delete ID " + id + "; perhaps illegal ID or an ID for an item not in the system?"
  }

  function OwnerError(raw: string): string {
    "Todo must have a non-empty owner; body was " + raw
  }

  function CategoryError(raw: string): string {
    "Todo must have a non-empty category; body was" + raw
  }

  function BodyError(raw: string): string {
    "Todo must have a non-empty body; body was " + raw
  }

  /**
   * `constructFilter`: one clause per filter key present, in the order
   * owner, category, status, body; the empty document when there is none.
   */
  method ConstructFilter(params: Params) returns (combined: Filter)
    ensures combined == Everything <==> !HasFilterKey(params)
    ensures combined.All? ==> 1 <= |combined.clauses| <= 4
    ensures forall t, regex :: Matches(t, combined, regex) <==> Selects(params, t, regex)
  {
    var filters: seq<Clause> := [];
    if OwnerKey in params {
      forall t, regex ensures SatisfiesAll(t, filters + [OwnerIs(params[OwnerKey])], regex) <==> OwnerHolds(params, t) {
        SatisfiesAllAppend(t, filters, OwnerIs(params[OwnerKey]), regex);
      }
      filters := filters + [OwnerIs(params[OwnerKey])];
    }
    assert forall t, regex :: SatisfiesAll(t, filters, regex) <==> OwnerHolds(params, t);
    if CategoryKey in params {
      forall t, regex ensures SatisfiesAll(t, filters + [CategoryMatches(params[CategoryKey])], regex)
        <==> SatisfiesAll(t, filters, regex) && CategoryHolds(params, t, regex)
      {
        SatisfiesAllAppend(t, filters, CategoryMatches(params[CategoryKey]), regex);
      }
      filters := filters + [CategoryMatches(params[CategoryKey])];
    }
    assert forall t, regex :: SatisfiesAll(t, filters, regex) <==>
      OwnerHolds(params, t) && CategoryHolds(params, t, regex);
    if StatusKey in params {
      var status := ParseBoolean(params[StatusKey]);
      forall t, regex ensures SatisfiesAll(t, filters + [StatusIs(status)], regex)
        <==> SatisfiesAll(t, filters, regex) && StatusHolds(params, t)
      {
        SatisfiesAllAppend(t, filters, StatusIs(status), regex);
      }
      filters := filters + [StatusIs(status)];
    }
    assert forall t, regex :: SatisfiesAll(t, filters, regex) <==>
      OwnerHolds(params, t) && CategoryHolds(params, t, regex) && StatusHolds(params, t);
    if BodyKey in params {
      forall t, regex ensures SatisfiesAll(t, filters + [BodyContains(params[BodyKey])], regex)
        <==> SatisfiesAll(t, filters, regex) && BodyHolds(params, t)
      {
        SatisfiesAllAppend(t, filters, BodyContains(params[BodyKey]), regex);
      }
      filters := filters + [BodyContains(params[BodyKey])];
    }
    assert forall t, regex :: SatisfiesAll(t, filters, regex) <==> Selects(params, t, regex);
    combined := if |filters| == 0 then Everything else All(filters);
  }

  /**
   * `constructSortingOrder`: sort on `sortby` (default owner), descending
   * only for the exact value "desc" of `sortorder` (default "asc").
   */
  function ConstructSortingOrder(params: Params): (order: SortOrder)
    ensures SortByKey !in params ==> order.field == OwnerKey
    ensures SortByKey in params ==> order.field == params[SortByKey]
    ensures order.descending <==> SortOrderKey in params && params[SortOrderKey] == "desc"
  {
    var sortBy := QueryParam(params, SortByKey).GetOr(OwnerKey);
    var sortOrder := QueryParam(params, SortOrderKey).GetOr("asc");
    SortOrder(sortBy, sortOrder == "desc")
  }

  /** `Integer.parseInt(ctx.queryParam("limit"))`, None where it throws (null included). */
  function ParseLimit(params: Params): (limit: Option<int>)
    ensures LimitKey !in params ==> limit.None?
    ensures LimitKey in params ==> limit == ParseInt(params[LimitKey])
    ensures limit.Some? ==> MinInt <= limit.value <= MaxInt
  {
    match QueryParam(params, LimitKey)
    case None => None
    case Some(s) => ParseInt(s)
  }

  /** The status `getTodosByStatus` asks for: true only for "complete", in any case. */
  function StatusFromParam(param: Option<string>): (status: bool)
    ensures status <==> param.Some? && Lower(param.value) == "complete"
  {
    if param.None? then false
    else
      EqualsIgnoreCaseIsLowerEquality("complete", param.value);
      assert Lower("complete") == "complete";
      EqualsIgnoreCase("complete", param.value)
  }

  predicate NonEmpty(s: Option<string>) {
    s.Some? && |s.value| > 0
  }

  /**
   * The messages of the failing checks of `addNewTodo`'s body validator, in
   * the order the checks are declared: owner, category, body. `status` is
   * not checked.
   */
  function ValidationErrors(raw: string, payload: TodoPayload): (errors: seq<string>)
    ensures errors == [] <==> NonEmpty(payload.owner) && NonEmpty(payload.category) && NonEmpty(payload.body)
    ensures |errors| <= 3
    ensures OwnerError(raw) in errors <==> !NonEmpty(payload.owner)
    ensures CategoryError(raw) in errors <==> !NonEmpty(payload.category)
    ensures BodyError(raw) in errors <==> !NonEmpty(payload.body)
    ensures |errors| ==
      (if NonEmpty(payload.owner) then 0 else 1)
      + (if NonEmpty(payload.category) then 0 else 1)
      + (if NonEmpty(payload.body) then 0 else 1)
    ensures !NonEmpty(payload.owner) ==> errors[0] == OwnerError(raw)
    ensures NonEmpty(payload.owner) && !NonEmpty(payload.category) ==> errors[0] == CategoryError(raw)
    ensures forall i, j :: 0 <= i < j < |errors| && errors[j] == CategoryError(raw) ==> errors[i] == OwnerError(raw)
    ensures !NonEmpty(payload.body) ==> errors[|errors| - 1] == BodyError(raw)
  {
    assert OwnerError(raw)[27] == 'o' && CategoryError(raw)[27] == 'c' && BodyError(raw)[27] == 'b';
    (if NonEmpty(payload.owner) then [] else [OwnerError(raw)])
    + (if NonEmpty(payload.category) then [] else [CategoryError(raw)])
    + (if NonEmpty(payload.body) then [] else [BodyError(raw)])
  }

  /**
   * The hex rendering of `md5`: two lowercase hex digits per digest byte.
   * `digest` stands for MD5 of the UTF-8 bytes of `str.toLowerCase()`.
   */
  method Md5(str: string, digest: string -> seq<byte>) returns (hex: string)
    ensures hex == HexOfBytes(digest(str))
    ensures |hex| == 2 * |digest(str)|
    ensures forall i :: 0 <= i < |digest(str)| ==> hex[2 * i..2 * i + 2] == ByteHex(digest(str)[i])
    ensures forall i :: 0 <= i < |hex| ==> '0' <= hex[i] <= '9' || 'a' <= hex[i] <= 'f'
    ensures ParseHex(hex) == Some(digest(str))
  {
    var hashInBytes := digest(str);
    var result := "";
    for i := 0 to |hashInBytes|
      invariant result == HexOfBytes(hashInBytes[..i])
    {
      assert hashInBytes[..i + 1][..i] == hashInBytes[..i];
      result := result + ByteHex(hashInBytes[i]);
    }
    assert hashInBytes[..|hashInBytes|] == hashInBytes;
    hex := result;
    forall i | 0 <= i < |hashInBytes|
      ensures hex[2 * i..2 * i + 2] == ByteHex(hashInBytes[i])
    {
      HexOfBytesAt(hashInBytes, i);
    }
    HexOfBytesIsLowercase(hashInBytes);
    ParseHexOfBytes(hashInBytes);
  }

  /**
   * BSON writes regular-expression patterns and field names as
   * NUL-terminated strings, so the driver refuses to encode one that holds
   * a NUL character.
   */
  predicate Encodable(s: string) {
    '\0' !in s
  }

  /**
   * Whether the driver encodes, and the server accepts, the find of a list
   * request. The `category` pattern, when present, must be encodable and
   * compile as a regular expression (`compiles`). The quoted `body` pattern
   * always compiles but must be encodable. The sort field must be encodable
   * and one the server allows (`validField`).
   */
  predicate QueryAccepted(params: Params, compiles: string -> bool, validField: string -> bool) {
    && (CategoryKey in params ==> Encodable(params[CategoryKey]) && compiles(params[CategoryKey]))
    && (BodyKey in params ==> Encodable(params[BodyKey]))
    && Encodable(ConstructSortingOrder(params).field)
    && validField(ConstructSortingOrder(params).field)
  }

  /** A number above the value of every id in `s`. */
  function IdCeiling(s: seq<Todo>): (n: nat)
    ensures forall t :: t in s ==> IdValue(t.id) < n
  {
    if s == [] then 0
    else
      var rest := IdCeiling(s[1..]);
      assert forall t :: t in s ==> t == s[0] || t in s[1..];
      if IdValue(s[0].id) < rest then rest else IdValue(s[0].id) + 1
  }

  /**
   * The id generated from counter `n` stands for a number not above `n`; when
   * every stored id stands for less than `n < IdSpace`, no document has it yet.
   */
  lemma GeneratedIdBelowCounter(s: seq<Todo>, n: nat)
    requires forall t :: t in s ==> IdValue(t.id) < n
    ensures IdValue(NewObjectId(n)) <= n
    ensures n < IdSpace ==> !HasId(s, NewObjectId(n))
  {
    IdValueOfNewObjectId(n);
  }

  /** Appending a document whose id is new keeps ids unique. */
  lemma AppendKeepsDistinct(s: seq<Todo>, t: Todo)
    requires DistinctIds(s) && !HasId(s, t.id)
    ensures DistinctIds(s + [t])
  {
    var r := s + [t];
    forall i, j | 0 <= i < j < |r|
      ensures r[i].id != r[j].id
    {
      if j == |s| {
        assert r[i] == s[i];
      }
    }
  }

  class TodoController {
    /** The `todos` collection. */
    var todos: seq<Todo>
    /** The counter fresh ObjectIds are drawn from. */
    var nextId: nat

    /** Ids are unique, and every id stands for a number the counter has passed. */
    ghost predicate Valid()
      reads this
    {
      && DistinctIds(todos)
      && forall t :: t in todos ==> IdValue(t.id) < nextId
    }

    /** A controller over a collection already holding `initial`. */
    constructor (initial: seq<Todo>)
      requires DistinctIds(initial)
      ensures Valid()
      ensures todos == initial
    {
      todos := initial;
      nextId := IdCeiling(initial);
    }

    /**
     * `getTodoByID`: 400 for an id that is not an ObjectId, 404 when no
     * document has it, else the document.
     */
    method GetTodoByID(id: string) returns (resp: Response)
      ensures ParseObjectId(id).None? ==> resp == BadRequest([IllegalIdMessage])
      ensures ParseObjectId(id).Some? && !HasId(todos, ParseObjectId(id).value) ==>
        resp == NotFound(TodoNotFoundMessage)
      ensures ParseObjectId(id).Some? && HasId(todos, ParseObjectId(id).value) ==>
        resp.Ok? && resp.body.One? && resp.body.todo in todos && resp.body.todo.id == ParseObjectId(id).value
    {
      var oid := ParseObjectId(id);
      if oid.None? {
        return BadRequest([IllegalIdMessage]);
      }
      var todo := FindById(todos, oid.value);
      if todo.None? {
        resp := NotFound(TodoNotFoundMessage);
      } else {
        resp := Ok(One(todo.value));
      }
    }

    /**
     * `getTodos`: the documents the filter parameters select, sorted as
     * `sortby` and `sortorder` ask, at most `limit` of them. A missing or
     * non-integer `limit` is an uncaught NumberFormatException, raised
     * before the query is sent; a query the server refuses is an uncaught
     * driver exception.
     */
    method GetTodos(params: Params, regex: Regex, compiles: string -> bool, validField: string -> bool)
      returns (resp: Response)
      ensures ParseLimit(params).None? ==> resp == ServerError(LimitNotAnInteger)
      ensures ParseLimit(params).Some? && !QueryAccepted(params, compiles, validField) ==>
        resp == ServerError(QueryRejected)
      ensures ParseLimit(params).Some? && QueryAccepted(params, compiles, validField) ==>
        resp.Ok? && resp.body.Many?
      ensures resp.Ok? && resp.body.Many? ==>
        var r := resp.body.todos;
        var m := Matching(todos, params, regex);
        var order := ConstructSortingOrder(params);
        var limit := ParseLimit(params).value;
        && (forall t :: t in r ==> t in todos && Selects(params, t, regex))
        && multiset(r) <= multiset(m)
        && Sorted(r, order)
        && (limit > 0 ==> |r| == Min(|m|, limit))
        && (limit == 0 ==> multiset(r) == multiset(m))
        && (limit < 0 ==> |r| <= -limit)
        && forall t, u :: t in multiset(m) - multiset(r) && u in r ==> Precedes(u, t, order)
    {
      var combined := ConstructFilter(params);
      var order := ConstructSortingOrder(params);
      var limit := ParseLimit(params);
      if limit.None? {
        return ServerError(LimitNotAnInteger);
      }
      if !QueryAccepted(params, compiles, validField) {
        return ServerError(QueryRejected);
      }
      var found := Where(todos, t => Matches(t, combined, regex));
      WhereAgrees(todos, t => Matches(t, combined, regex), t => Selects(params, t, regex));
      assert found == Matching(todos, params, regex);
      var matchingTodos := Limit(SortTodos(found, order), limit.value);
      LimitSortedSpec(found, order, limit.value);
      forall t | t in matchingTodos
        ensures t in todos && Selects(params, t, regex)
      {
        assert t in multiset(matchingTodos);
      }
      resp := Ok(Many(matchingTodos));
    }

    /**
     * `getTodosByStatus`: every document whose status is true exactly when
     * the `status` parameter is "complete" in any case; no sort, no limit.
     */
    method GetTodosByStatus(statusParam: Option<string>) returns (resp: Response)
      ensures resp.Ok? && resp.body.Many?
      ensures forall t: Todo ::
        multiset(resp.body.todos)[t] == (if t.status == Some(StatusFromParam(statusParam)) then multiset(todos)[t] else 0)
    {
      var status := StatusFromParam(statusParam);
      var matchingTodos := Where(todos, (t: Todo) => t.status == Some(status));
      forall t: Todo
        ensures multiset(matchingTodos)[t] == if t.status == Some(status) then multiset(todos)[t] else 0
      {
        WhereCount(todos, (u: Todo) => u.status == Some(status), t);
      }
      resp := Ok(Many(matchingTodos));
    }

    /**
     * `addNewTodo`: reject a body whose owner, category or body is missing
     * or empty; otherwise insert it under a fresh id and answer that id.
     */
    method AddNewTodo(raw: string, payload: TodoPayload) returns (resp: Response)
      requires Valid()
      modifies this
      ensures Valid()
      ensures ValidationErrors(raw, payload) != [] ==>
        && resp == BadRequest(ValidationErrors(raw, payload))
        && todos == old(todos)
        && nextId == old(nextId)
      ensures ValidationErrors(raw, payload) == [] ==>
        var id := NewObjectId(old(nextId));
        && nextId == old(nextId) + 1
        && (HasId(old(todos), id) ==> resp == ServerError(DuplicateKey) && todos == old(todos))
        && (!HasId(old(todos), id) ==>
              && resp == Created(ToHexString(id))
              && todos == old(todos) + [Todo(id, payload.owner, payload.category, payload.body, Some(payload.status))])
      ensures ValidationErrors(raw, payload) == [] && old(nextId) < IdSpace ==> resp.Created?
    {
      var errors := ValidationErrors(raw, payload);
      if errors != [] {
        return BadRequest(errors);
      }
      var id := NewObjectId(nextId);
      GeneratedIdBelowCounter(todos, nextId);
      nextId := nextId + 1;
      if HasId(todos, id) {
        return ServerError(DuplicateKey);
      }
      var newTodo := Todo(id, payload.owner, payload.category, payload.body, Some(payload.status));
      AppendKeepsDistinct(todos, newTodo);
      todos := todos + [newTodo];
      resp := Created(ToHexString(id));
    }

    /**
     * `deleteTodoByID`: delete the document with that id, 404 unless exactly
     * one was deleted; an id that is not an ObjectId is not caught.
     */
    method DeleteTodoByID(id: string) returns (resp: Response)
      requires Valid()
      modifies this
      ensures Valid()
      ensures nextId == old(nextId)
      ensures ParseObjectId(id).None? ==> resp == ServerError(IllegalObjectId) && todos == old(todos)
      ensures ParseObjectId(id).Some? ==>
        var oid := ParseObjectId(id).value;
        && todos == RemoveFirst(old(todos), oid)
        && (HasId(old(todos), oid) ==> resp == Ok(NoContent))
        && (!HasId(old(todos), oid) ==> resp == NotFound(DeleteFailedMessage(id)))
    {
      var oid := ParseObjectId(id);
      if oid.None? {
        return ServerError(IllegalObjectId);
      }
      var deletedCount := if HasId(todos, oid.value) then 1 else 0;
      RemoveFirstRemovesId(todos, oid.value);
      ghost var before := todos;
      todos := RemoveFirst(todos, oid.value);
      forall t | t in todos
        ensures IdValue(t.id) < nextId
      {
        assert t in multiset(todos);
        assert t in before;
      }
      if deletedCount != 1 {
        return NotFound(DeleteFailedMessage(id));
      }
      resp := Ok(NoContent);
    }
  }
}
