/**
 * Concrete requests against a small collection, and the client-side
 * consequences of the handler contracts: a created todo can be fetched by
 * the id the create answered, and deleting the same id twice fails the
 * second time.
 */
module Scenarios {
  import opened Options
  import opened Text
  import opened Hex
  import opened ObjectIds
  import opened Todos
  import opened Sorting
  import opened TodoServer

  /** A category pattern without metacharacters finds itself as a case-sensitive substring. */
  function LiteralRegex(pattern: string, value: string): bool {
    Contains(value, pattern)
  }

  /** An id whose twelve bytes are all `k`. */
  function SampleId(k: byte): (id: ObjectId)
    ensures WellFormed(id)
  {
    ObjectId(seq(12, _ => k))
  }

  const Blanche := Todo(SampleId(1), Some("Blanche"), Some("homework"), None, Some(true))
  const Fry := Todo(SampleId(2), Some("Fry"), Some("video games"), None, Some(false))
  const Dawn := Todo(SampleId(3), Some("Dawn"), Some("homework"), Some("do 3601 homework"), Some(true))
  const Sam := Todo(SampleId(4), Some("Sam"), Some("homework"), None, Some(true))

  function SampleTodos(): seq<Todo> {
    [Blanche, Fry, Dawn, Sam]
  }

  /** The sample ids differ in their first byte, so the sample collection keeps the unique index. */
  lemma SampleTodosDistinct()
    ensures DistinctIds(SampleTodos())
  {
    var s := SampleTodos();
    assert forall i :: 0 <= i < |s| ==> s[i].id.bytes[0] == (i + 1) as byte;
  }

  /** `owner=Fry` selects exactly Fry's todo, whatever the category regex does. */
  lemma OwnerFryScenario(regex: Regex)
    ensures Matching(SampleTodos(), map[OwnerKey := "Fry"], regex) == [Fry]
  {
    var p := map[OwnerKey := "Fry"];
    assert !Selects(p, Blanche, regex) && Selects(p, Fry, regex);
    assert !Selects(p, Dawn, regex) && !Selects(p, Sam, regex);
    assert SampleTodos()[1..][1..][1..][1..] == [];
  }

  /** `body=DO 3601 HOMEWORK` selects exactly Dawn's todo: the match ignores case. */
  lemma BodyScenario(regex: Regex)
    ensures Matching(SampleTodos(), map[BodyKey := "DO 3601 HOMEWORK"], regex) == [Dawn]
  {
    var p := map[BodyKey := "DO 3601 HOMEWORK"];
    assert OccursAtIgnoreCase("do 3601 homework", "DO 3601 HOMEWORK", 0);
    assert Selects(p, Dawn, regex);
    assert SampleTodos()[1..][1..][1..][1..] == [];
  }

  /** `category=homework` selects the three homework todos, in collection order. */
  lemma CategoryScenario()
    ensures Matching(SampleTodos(), map[CategoryKey := "homework"], LiteralRegex) == [Blanche, Dawn, Sam]
  {
    var p := map[CategoryKey := "homework"];
    assert OccursAt("homework", "homework", 0);
    assert !Contains("video games", "homework") by {
      forall i | 0 <= i <= 3
        ensures !OccursAt("video games", "homework", i)
      {
        assert "video games"[i..i + 8][0] != 'h';
      }
    }
    assert Selects(p, Blanche, LiteralRegex) && !Selects(p, Fry, LiteralRegex);
    assert Selects(p, Dawn, LiteralRegex) && Selects(p, Sam, LiteralRegex);
    assert SampleTodos()[1..][1..][1..][1..] == [];
  }

  /**
   * The two status rules disagree: the list endpoint reads "true" as true
   * and "complete" as false; the status endpoint does the opposite.
   */
  lemma StatusRulesDisagree()
    ensures ParseBoolean("TRUE") && !ParseBoolean("complete")
    ensures StatusFromParam(Some("Complete")) && !StatusFromParam(Some("true"))
    ensures !StatusFromParam(None)
  {
    assert Lower("Complete") == "complete";
    assert Lower("true") != "complete";
  }

  /** `sortorder` is compared exactly: only "desc" sorts descending. */
  lemma SortOrderScenario()
    ensures ConstructSortingOrder(map[]) == SortOrder(OwnerKey, false)
    ensures ConstructSortingOrder(map[SortOrderKey := "DESC"]).descending == false
    ensures ConstructSortingOrder(map[SortByKey := "category", SortOrderKey := "desc"]) == SortOrder(CategoryKey, true)
  {
  }

  const AbsentId := "588935f5c668650dc77df581"

  /** No sample todo has an id whose hex form starts with anything but '0'. */
  lemma NotASampleId(s: string)
    requires ParseObjectId(s).Some?
    requires LowerChar(s[0]) != '0'
    ensures !HasId(SampleTodos(), ParseObjectId(s).value)
  {
    var oid := ParseObjectId(s).value;
    ToHexStringOfParse(s);
    assert ToHexString(oid)[0] == Lower(s)[0] == LowerChar(s[0]);
    forall t | t in SampleTodos()
      ensures t.id != oid
    {
      HexOfBytesAt(t.id.bytes, 0);
      assert ToHexString(t.id)[0] == '0';
    }
  }

  /** The absent id of the scenario is well-formed and no sample todo has it. */
  lemma AbsentIdScenario()
    ensures ParseObjectId(AbsentId).Some?
    ensures !HasId(SampleTodos(), ParseObjectId(AbsentId).value)
  {
    assert forall i :: 0 <= i < |AbsentId| ==> IsHexChar(AbsentId[i]);
    NotASampleId(AbsentId);
  }

  /** Get-by-id answers 400 for "bad" and 404 for a well-formed id no todo has. */
  method GetByIdScenario() returns (bad: Response, absent: Response)
    ensures bad == BadRequest([IllegalIdMessage])
    ensures absent == NotFound(TodoNotFoundMessage)
  {
    SampleTodosDistinct();
    var controller := new TodoController(SampleTodos());
    bad := controller.GetTodoByID("bad");
    AbsentIdScenario();
    absent := controller.GetTodoByID(AbsentId);
  }

  /**
   * With a valid limit, a `category` pattern the server cannot compile makes
   * the list request fail, whatever the store holds.
   */
  method RejectedPatternScenario(controller: TodoController, regex: Regex, compiles: string -> bool, validField: string -> bool)
    returns (resp: Response)
    requires !compiles("(")
    ensures resp == ServerError(QueryRejected)
  {
    var params := map[LimitKey := "5", CategoryKey := "("];
    assert ParseInt("5") == Some(5);
    resp := controller.GetTodos(params, regex, compiles, validField);
  }

  /** A `body` text holding a NUL character cannot be sent, so the list request fails. */
  method NulBodyScenario(controller: TodoController, regex: Regex, compiles: string -> bool, validField: string -> bool)
    returns (resp: Response)
    ensures resp == ServerError(QueryRejected)
  {
    var params := map[LimitKey := "5", BodyKey := "\0"];
    assert ParseInt("5") == Some(5);
    resp := controller.GetTodos(params, regex, compiles, validField);
  }

  /**
   * A plain request with only a limit succeeds when the server allows
   * sorting on `owner`, and returns the whole collection when the limit
   * does not cut it.
   */
  method PlainListScenario(controller: TodoController, regex: Regex, compiles: string -> bool, validField: string -> bool)
    returns (resp: Response)
    requires validField(OwnerKey)
    requires |controller.todos| <= 5
    ensures resp.Ok? && resp.body.Many?
    ensures multiset(resp.body.todos) == multiset(controller.todos)
  {
    var params := map[LimitKey := "5"];
    assert ParseInt("5") == Some(5);
    resp := controller.GetTodos(params, regex, compiles, validField);
    MatchingAllWithoutFilterKeys(controller.todos, params, regex);
    var kept, all := multiset(resp.body.todos), multiset(controller.todos);
    assert |kept| == |all|;
    assert all == kept + (all - kept);
    assert |all - kept| == 0;
  }

  /** A todo created through the API is fetched back by the id the create answered. */
  method CreateThenGet(controller: TodoController, raw: string, payload: TodoPayload)
    returns (created: Response, fetched: Response)
    requires controller.Valid()
    requires ValidationErrors(raw, payload) == []
    requires controller.nextId < IdSpace
    modifies controller
    ensures created.Created?
    ensures fetched.Ok? && fetched.body.One?
    ensures fetched.body.todo.owner == payload.owner && fetched.body.todo.category == payload.category
    ensures fetched.body.todo.body == payload.body && fetched.body.todo.status == Some(payload.status)
    ensures created.id == ToHexString(NewObjectId(old(controller.nextId)))
    ensures fetched.body.todo.id == NewObjectId(old(controller.nextId))
  {
    ghost var id := NewObjectId(controller.nextId);
    created := controller.AddNewTodo(raw, payload);
    ParseToHexString(id);
    fetched := controller.GetTodoByID(created.id);
    var last := controller.todos[|controller.todos| - 1];
    assert last.id == id && last in controller.todos;
    FindByIdIsUnique(controller.todos, id, last);
    assert fetched.body.todo == last;
  }

  /** Deleting an id a second time answers not-found and changes nothing. */
  method DeleteTwice(controller: TodoController, id: string) returns (first: Response, second: Response)
    requires controller.Valid()
    requires ParseObjectId(id).Some?
    modifies controller
    ensures second == NotFound(DeleteFailedMessage(id))
    ensures controller.todos == RemoveFirst(old(controller.todos), ParseObjectId(id).value)
  {
    first := controller.DeleteTodoByID(id);
    RemoveFirstRemovesId(old(controller.todos), ParseObjectId(id).value);
    second := controller.DeleteTodoByID(id);
  }
}
