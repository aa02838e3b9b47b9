/**
 * Todo documents, the query clauses the list endpoint sends to the store,
 * and what the store does with them: select the documents a filter
 * accepts, find a document by `_id`, delete the first one with an `_id`.
 */
module Todos {
  import opened Options
  import opened Text
  import opened ObjectIds

  /**
   * A stored todo document. A field the document lacks, or holds as null,
   * is None; `status` is a boolean when present.
   */
  datatype Todo = Todo(
    id: ObjectId,
    owner: Option<string>,
    category: Option<string>,
    body: Option<string>,
    status: Option<bool>)

  /**
   * The request body of a create request after JSON deserialisation; a
   * missing or null JSON string is None, a missing `status` is `false`.
   */
  datatype TodoPayload = TodoPayload(
    owner: Option<string>,
    category: Option<string>,
    body: Option<string>,
    status: bool)

  /** Query parameters: each key present maps to its first value. */
  type Params = map<string, string>

  /**
   * The store's `$regex` test: does the regular expression `pattern` find a
   * match in `value`? Regular-expression semantics are not modelled.
   */
  type Regex = (string, string) -> bool

  const OwnerKey := "owner"
  const CategoryKey := "category"
  const StatusKey := "status"
  const BodyKey := "body"

  /** `ctx.queryParam(key)`: the parameter's value, or None when it is absent. */
  function QueryParam(params: Params, key: string): (v: Option<string>)
    ensures v.Some? <==> key in params
    ensures v.Some? ==> v.value == params[key]
  {
    if key in params then Some(params[key]) else None
  }

  /** `Boolean.parseBoolean(s)`: true exactly for "true" in any case. */
  function ParseBoolean(s: string): (b: bool)
    ensures b <==> Lower(s) == "true"
    ensures b ==> |s| == 4
  {
    EqualsIgnoreCaseIsLowerEquality("true", s);
    assert Lower("true") == "true";
    EqualsIgnoreCase("true", s)
  }

  predicate HasFilterKey(params: Params) {
    OwnerKey in params || CategoryKey in params || StatusKey in params || BodyKey in params
  }

  /** The constraint of the `owner` parameter: exact equality; none when absent. */
  predicate OwnerHolds(params: Params, t: Todo) {
    OwnerKey in params ==> t.owner == Some(params[OwnerKey])
  }

  /** The constraint of the `category` parameter: a regular-expression match. */
  predicate CategoryHolds(params: Params, t: Todo, regex: Regex) {
    CategoryKey in params ==> t.category.Some? && regex(params[CategoryKey], t.category.value)
  }

  /** The constraint of the `status` parameter: equality with its boolean reading. */
  predicate StatusHolds(params: Params, t: Todo) {
    StatusKey in params ==> t.status == Some(ParseBoolean(params[StatusKey]))
  }

  /** The constraint of the `body` parameter: literal containment, ignoring case. */
  predicate BodyHolds(params: Params, t: Todo) {
    BodyKey in params ==> t.body.Some? && ContainsIgnoreCase(t.body.value, params[BodyKey])
  }

  /**
   * Which documents a list request asks for: each filter key present
   * constrains its own field, and a key that is absent constrains nothing.
   */
  predicate Selects(params: Params, t: Todo, regex: Regex) {
    OwnerHolds(params, t) && CategoryHolds(params, t, regex) && StatusHolds(params, t) && BodyHolds(params, t)
  }

  /** The parameters with only `key` kept, if it is there. */
  function Only(params: Params, key: string): (p: Params)
    ensures p.Keys <= {key}
  {
    if key in params then map[key := params[key]] else map[]
  }

  /** Without any filter key, every document is selected. */
  lemma SelectsAllWithoutFilterKeys(params: Params, t: Todo, regex: Regex)
    requires !HasFilterKey(params)
    ensures Selects(params, t, regex)
  {
  }

  /**
   * The selection is the conjunction of the four one-key selections, and a
   * key that is absent selects every document.
   */
  lemma SelectsIsConjunction(params: Params, t: Todo, regex: Regex)
    ensures Selects(params, t, regex) <==>
      && Selects(Only(params, OwnerKey), t, regex)
      && Selects(Only(params, CategoryKey), t, regex)
      && Selects(Only(params, StatusKey), t, regex)
      && Selects(Only(params, BodyKey), t, regex)
    ensures forall key :: key !in params ==> Selects(Only(params, key), t, regex)
  {
  }

  // ---------------------------------------------------------------------
  // The filter document built by the controller

  /** One clause of the filter: `eq` on owner or status, `regex` on category or body. */
  datatype Clause =
    | OwnerIs(owner: string)
    | CategoryMatches(pattern: string)
    | StatusIs(status: bool)
    | BodyContains(text: string)

  /** The empty filter document, or `and` of a non-empty list of clauses. */
  datatype Filter = Everything | All(clauses: seq<Clause>)

  /** What the store does with one clause. */
  predicate Satisfies(t: Todo, c: Clause, regex: Regex) {
    match c
    case OwnerIs(o) => t.owner == Some(o)
    case CategoryMatches(p) => t.category.Some? && regex(p, t.category.value)
    case StatusIs(b) => t.status == Some(b)
    case BodyContains(text) => t.body.Some? && ContainsIgnoreCase(t.body.value, text)
  }

  predicate SatisfiesAll(t: Todo, clauses: seq<Clause>, regex: Regex) {
    forall c :: c in clauses ==> Satisfies(t, c, regex)
  }

  lemma SatisfiesAllAppend(t: Todo, clauses: seq<Clause>, c: Clause, regex: Regex)
    ensures SatisfiesAll(t, clauses + [c], regex) <==> SatisfiesAll(t, clauses, regex) && Satisfies(t, c, regex)
  {
  }

  /** What the store does with a filter document. */
  predicate Matches(t: Todo, f: Filter, regex: Regex) {
    match f
    case Everything => true
    case All(clauses) => SatisfiesAll(t, clauses, regex)
  }

  // ---------------------------------------------------------------------
  // Selection from the collection

  /** The documents of `s` that `p` accepts, in their order. */
  function Where(s: seq<Todo>, p: Todo -> bool): (r: seq<Todo>)
    ensures |r| <= |s|
    ensures forall t :: t in r ==> t in s && p(t)
  {
    if s == [] then []
    else if p(s[0]) then [s[0]] + Where(s[1..], p)
    else Where(s[1..], p)
  }

  /** Selection keeps every accepted document as often as it occurs, and nothing else. */
  lemma {:induction false} WhereCount(s: seq<Todo>, p: Todo -> bool, t: Todo)
    ensures multiset(Where(s, p))[t] == if p(t) then multiset(s)[t] else 0
  {
    if s != [] {
      WhereCount(s[1..], p, t);
      assert s == [s[0]] + s[1..];
    }
  }

  /** Selections by two predicates that agree on every document are the same. */
  lemma {:induction false} WhereAgrees(s: seq<Todo>, p: Todo -> bool, q: Todo -> bool)
    requires forall t :: p(t) == q(t)
    ensures Where(s, p) == Where(s, q)
  {
    if s != [] {
      WhereAgrees(s[1..], p, q);
    }
  }

  /** The documents a list request selects, in collection order. */
  function Matching(todos: seq<Todo>, params: Params, regex: Regex): seq<Todo> {
    Where(todos, t => Selects(params, t, regex))
  }

  /** Without any filter key the selection is the whole collection. */
  lemma {:induction false} MatchingAllWithoutFilterKeys(todos: seq<Todo>, params: Params, regex: Regex)
    requires !HasFilterKey(params)
    ensures Matching(todos, params, regex) == todos
  {
    if todos != [] {
      MatchingAllWithoutFilterKeys(todos[1..], params, regex);
      assert Matching(todos, params, regex) == [todos[0]] + Matching(todos[1..], params, regex);
    }
  }

  // ---------------------------------------------------------------------
  // Lookup and deletion by id

  predicate HasId(s: seq<Todo>, id: ObjectId) {
    exists i :: 0 <= i < |s| && s[i].id == id
  }

  /** The unique `_id` index: no two documents share an id. */
  predicate DistinctIds(s: seq<Todo>) {
    forall i, j :: 0 <= i < j < |s| ==> s[i].id != s[j].id
  }

  /** The position of the first document with id `id`. */
  function FirstIndex(s: seq<Todo>, id: ObjectId): (k: nat)
    requires HasId(s, id)
    ensures k < |s| && s[k].id == id
    ensures forall j :: 0 <= j < k ==> s[j].id != id
  {
    if s[0].id == id then 0
    else
      assert HasId(s[1..], id) by {
        var i :| 0 <= i < |s| && s[i].id == id;
        assert s[1..][i - 1].id == id;
      }
      FirstIndex(s[1..], id) + 1
  }

  /** `find(eq("_id", id)).first()`: the first document with that id, if any. */
  function FindById(s: seq<Todo>, id: ObjectId): (r: Option<Todo>)
    ensures r.Some? <==> HasId(s, id)
    ensures r.Some? ==> r.value in s && r.value.id == id
  {
    if HasId(s, id) then Some(s[FirstIndex(s, id)]) else None
  }

  /** With distinct ids, the document found is the only one with that id. */
  lemma FindByIdIsUnique(s: seq<Todo>, id: ObjectId, t: Todo)
    requires DistinctIds(s)
    requires t in s && t.id == id
    ensures FindById(s, id) == Some(t)
  {
    var i :| 0 <= i < |s| && s[i] == t;
    var k := FirstIndex(s, id);
    assert !(k < i) && !(i < k);
  }

  /** `deleteOne(eq("_id", id))`: drop the first document with that id, keep the rest in order. */
  function RemoveFirst(s: seq<Todo>, id: ObjectId): (r: seq<Todo>)
    ensures !HasId(s, id) ==> r == s
    ensures HasId(s, id) ==> |r| == |s| - 1
    ensures HasId(s, id) ==> multiset(r) + multiset{FindById(s, id).value} == multiset(s)
  {
    if HasId(s, id) then
      var k := FirstIndex(s, id);
      assert s == s[..k] + [s[k]] + s[k + 1..];
      s[..k] + s[k + 1..]
    else s
  }

  /** Deleting keeps every document with another id, and adds none. */
  lemma RemoveFirstKeepsOthers(s: seq<Todo>, id: ObjectId, t: Todo)
    requires t.id != id
    ensures t in RemoveFirst(s, id) <==> t in s
  {
    if HasId(s, id) {
      var k := FirstIndex(s, id);
      assert s == s[..k] + [s[k]] + s[k + 1..];
    }
  }

  /** With distinct ids, after deleting an id no document has it, and ids stay distinct. */
  lemma RemoveFirstRemovesId(s: seq<Todo>, id: ObjectId)
    requires DistinctIds(s)
    ensures !HasId(RemoveFirst(s, id), id)
    ensures DistinctIds(RemoveFirst(s, id))
  {
    if HasId(s, id) {
      var k := FirstIndex(s, id);
      var r := RemoveFirst(s, id);
      assert forall i :: 0 <= i < |r| ==> r[i] == if i < k then s[i] else s[i + 1];
    }
  }
}
