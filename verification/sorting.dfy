/**
 * Sorting and limiting a query result as the store does it: one field,
 * ascending or descending, values compared in MongoDB's order (first by
 * BSON type, then within the type), then at most `limit` documents.
 */
module Sorting {
  import opened Options
  import opened ObjectIds
  import opened Todos

  /** `Sorts.ascending(field)` (descending false) or `Sorts.descending(field)`. */
  datatype SortOrder = SortOrder(field: string, descending: bool)

  const IdField := "_id"

  /** MongoDB ranks values of different BSON types: null < string < ObjectId < boolean. */
  const NullRank := 2
  const StringRank := 4
  const ObjectIdRank := 8
  const BooleanRank := 9

  /** The characters of `s` as numbers. */
  function CharsKey(s: string): (k: seq<int>)
    ensures |k| == |s|
  {
    seq(|s|, i requires 0 <= i < |s| => s[i] as int)
  }

  /** A comparison key: the type's rank, then the value (strings by code point). */
  function StringKey(v: Option<string>): seq<int> {
    match v
    case None => [NullRank]
    case Some(s) => [StringRank] + CharsKey(s)
  }

  /** The fields of a todo that hold strings. */
  predicate IsStringField(field: string) {
    field == OwnerKey || field == CategoryKey || field == BodyKey
  }

  function StringField(t: Todo, field: string): Option<string>
    requires IsStringField(field)
  {
    if field == OwnerKey then t.owner
    else if field == CategoryKey then t.category
    else t.body
  }

  /**
   * The key the store sorts `t` by when sorting on `field`; a field no
   * document has sorts every document as null.
   */
  function SortKey(t: Todo, field: string): (k: seq<int>)
    ensures k != []
    ensures field == IdField ==> k[0] == ObjectIdRank
    ensures IsStringField(field) ==> k[0] == if StringField(t, field).None? then NullRank else StringRank
    ensures field == StatusKey ==> k[0] == if t.status.None? then NullRank else BooleanRank
    ensures !IsStringField(field) && field != IdField && field != StatusKey ==> k == [NullRank]
  {
    if field == IdField then [ObjectIdRank] + seq(|t.id.bytes|, i requires 0 <= i < |t.id.bytes| => t.id.bytes[i] as int)
    else if IsStringField(field) then StringKey(StringField(t, field))
    else if field == StatusKey then
      (match t.status
       case None => [NullRank]
       case Some(b) => [BooleanRank, if b then 1 else 0])
    else [NullRank]
  }

  /** Lexicographic order on keys; a proper prefix comes first. */
  predicate LexLe(a: seq<int>, b: seq<int>) {
    a == [] || (b != [] && (a[0] < b[0] || (a[0] == b[0] && LexLe(a[1..], b[1..]))))
  }

  lemma {:induction false} LexLeTotal(a: seq<int>, b: seq<int>)
    ensures LexLe(a, b) || LexLe(b, a)
  {
    if a != [] && b != [] && a[0] == b[0] {
      LexLeTotal(a[1..], b[1..]);
    }
  }

  lemma {:induction false} LexLeTransitive(a: seq<int>, b: seq<int>, c: seq<int>)
    requires LexLe(a, b) && LexLe(b, c)
    ensures LexLe(a, c)
  {
    if a != [] && a[0] == b[0] && b[0] == c[0] {
      LexLeTransitive(a[1..], b[1..], c[1..]);
    }
  }

  /** `a` is `b` or a prefix of it. */
  predicate IsPrefix(a: string, b: string) {
    |a| <= |b| && a == b[..|a|]
  }

  /** `a` and `b` agree before position `k` and `a` has the smaller character there. */
  predicate LessAt(a: string, b: string, k: int) {
    0 <= k < |a| && k < |b| && a[..k] == b[..k] && a[k] < b[k]
  }

  /** `a` sorts before or with `b` as strings: a prefix of it, or smaller at the first difference. */
  predicate StringLe(a: string, b: string) {
    IsPrefix(a, b) || exists k :: 0 <= k < |a| && LessAt(a, b, k)
  }

  lemma StringLeSameHead(a: string, b: string)
    requires a != [] && b != [] && a[0] == b[0]
    ensures StringLe(a, b) <==> StringLe(a[1..], b[1..])
  {
    assert IsPrefix(a, b) <==> IsPrefix(a[1..], b[1..]) by {
      if IsPrefix(a, b) {
        assert a[1..] == b[..|a|][1..] == b[1..][..|a| - 1];
      }
      if IsPrefix(a[1..], b[1..]) {
        assert b[..|a|] == [b[0]] + b[1..][..|a| - 1];
        assert a == [a[0]] + a[1..];
      }
    }
    forall k | LessAt(a, b, k)
      ensures LessAt(a[1..], b[1..], k - 1)
    {
      assert k > 0;
      assert a[1..][..k - 1] == a[..k][1..] && b[1..][..k - 1] == b[..k][1..];
    }
    forall k | LessAt(a[1..], b[1..], k)
      ensures LessAt(a, b, k + 1)
    {
      assert a[..k + 1] == [a[0]] + a[1..][..k] && b[..k + 1] == [b[0]] + b[1..][..k];
    }
  }

  lemma StringLeDifferentHead(a: string, b: string)
    requires a != [] && b != [] && a[0] != b[0]
    ensures StringLe(a, b) <==> a[0] < b[0]
  {
    if a[0] < b[0] {
      assert LessAt(a, b, 0);
    }
  }

  lemma StringLeStep(a: string, b: string)
    requires a != [] && b != []
    ensures StringLe(a, b) <==> a[0] < b[0] || (a[0] == b[0] && StringLe(a[1..], b[1..]))
  {
    if a[0] == b[0] {
      StringLeSameHead(a, b);
    } else {
      StringLeDifferentHead(a, b);
    }
  }

  /** Two strings' keys compare as the strings do, character code by character code. */
  lemma {:induction false} CharsKeyOrder(a: string, b: string)
    ensures LexLe(CharsKey(a), CharsKey(b)) <==> StringLe(a, b)
  {
    if a != [] && b != [] {
      assert CharsKey(a)[1..] == CharsKey(a[1..]);
      assert CharsKey(b)[1..] == CharsKey(b[1..]);
      CharsKeyOrder(a[1..], b[1..]);
      StringLeStep(a, b);
    }
  }

  /**
   * On a string field, two present values sort as strings, and a document
   * without the field sorts before every document with it.
   */
  lemma StringFieldOrder(a: Todo, b: Todo, field: string)
    requires IsStringField(field)
    ensures StringField(a, field).Some? && StringField(b, field).Some? ==>
      (LexLe(SortKey(a, field), SortKey(b, field)) <==> StringLe(StringField(a, field).value, StringField(b, field).value))
    ensures StringField(a, field).None? && StringField(b, field).Some? ==>
      LexLe(SortKey(a, field), SortKey(b, field)) && !LexLe(SortKey(b, field), SortKey(a, field))
  {
    if StringField(a, field).Some? && StringField(b, field).Some? {
      var x, y := StringField(a, field).value, StringField(b, field).value;
      assert SortKey(a, field)[1..] == CharsKey(x);
      assert SortKey(b, field)[1..] == CharsKey(y);
      CharsKeyOrder(x, y);
    }
  }

  /** `a` may come before `b` in a result sorted by `order`. */
  predicate Precedes(a: Todo, b: Todo, order: SortOrder) {
    if order.descending then LexLe(SortKey(b, order.field), SortKey(a, order.field))
    else LexLe(SortKey(a, order.field), SortKey(b, order.field))
  }

  lemma PrecedesTotal(a: Todo, b: Todo, order: SortOrder)
    ensures Precedes(a, b, order) || Precedes(b, a, order)
  {
    LexLeTotal(SortKey(a, order.field), SortKey(b, order.field));
  }

  lemma PrecedesTransitive(a: Todo, b: Todo, c: Todo, order: SortOrder)
    requires Precedes(a, b, order) && Precedes(b, c, order)
    ensures Precedes(a, c, order)
  {
    var f := order.field;
    if order.descending {
      LexLeTransitive(SortKey(c, f), SortKey(b, f), SortKey(a, f));
    } else {
      LexLeTransitive(SortKey(a, f), SortKey(b, f), SortKey(c, f));
    }
  }

  predicate Sorted(s: seq<Todo>, order: SortOrder) {
    forall i, j :: 0 <= i < j < |s| ==> Precedes(s[i], s[j], order)
  }

  /** `x` placed into a sorted sequence before the first document it precedes. */
  function Insert(x: Todo, s: seq<Todo>, order: SortOrder): (r: seq<Todo>)
    requires Sorted(s, order)
    ensures Sorted(r, order)
    ensures multiset(r) == multiset(s) + multiset{x}
  {
    if s == [] then [x]
    else if Precedes(x, s[0], order) then
      assert forall j :: 0 <= j < |s| ==> Precedes(x, s[j], order) by {
        forall j | 0 <= j < |s| ensures Precedes(x, s[j], order) {
          if j > 0 { PrecedesTransitive(x, s[0], s[j], order); }
        }
      }
      [x] + s
    else
      var rest := Insert(x, s[1..], order);
      assert forall u :: u in rest ==> Precedes(s[0], u, order) by {
        forall u | u in rest ensures Precedes(s[0], u, order) {
          assert u in multiset(rest);
          if u == x {
            PrecedesTotal(x, s[0], order);
          } else {
            assert u in s[1..];
          }
        }
      }
      assert s == [s[0]] + s[1..];
      [s[0]] + rest
  }

  /** The documents of `s` in the order `order` asks for (ties in no promised order). */
  function SortTodos(s: seq<Todo>, order: SortOrder): (r: seq<Todo>)
    ensures Sorted(r, order)
    ensures multiset(r) == multiset(s)
  {
    if s == [] then []
    else
      assert s == [s[0]] + s[1..];
      Insert(s[0], SortTodos(s[1..], order), order)
  }

  /**
   * `.limit(n)`: at most `n` documents from the front. As MongoDB documents
   * it, 0 means no limit and a negative `n` caps the result at `-n`.
   */
  function Limit(s: seq<Todo>, n: int): (r: seq<Todo>)
    ensures |r| <= |s| && r == s[..|r|]
    ensures n > 0 ==> |r| == Min(|s|, n)
    ensures n == 0 ==> r == s
    ensures n < 0 ==> |r| == Min(|s|, -n)
  {
    var cap := if n < 0 then -n else n;
    if cap == 0 || cap >= |s| then s else s[..cap]
  }

  function Min(a: int, b: int): int {
    if a <= b then a else b
  }

  /** A prefix of a sorted sequence is sorted and comes before everything after it. */
  lemma SortedPrefix(s: seq<Todo>, k: nat, order: SortOrder)
    requires Sorted(s, order) && k <= |s|
    ensures Sorted(s[..k], order)
    ensures multiset(s) - multiset(s[..k]) == multiset(s[k..])
    ensures forall t, u :: t in multiset(s[k..]) && u in s[..k] ==> Precedes(u, t, order)
  {
    assert s == s[..k] + s[k..];
    forall t, u | t in multiset(s[k..]) && u in s[..k]
      ensures Precedes(u, t, order)
    {
      var j :| 0 <= j < |s[k..]| && s[k..][j] == t;
      var i :| 0 <= i < k && s[..k][i] == u;
      assert s[i] == u && s[k + j] == t;
    }
  }

  /**
   * The result of sorting then limiting: sorted, drawn from the input, of
   * the size the limit allows, and every document the limit cut off comes
   * after every document kept.
   */
  lemma LimitSortedSpec(m: seq<Todo>, order: SortOrder, n: int)
    ensures var r := Limit(SortTodos(m, order), n);
      && Sorted(r, order)
      && multiset(r) <= multiset(m)
      && (n > 0 ==> |r| == Min(|m|, n))
      && (n == 0 ==> multiset(r) == multiset(m))
      && (n < 0 ==> |r| <= -n)
      && forall t, u :: t in multiset(m) - multiset(r) && u in r ==> Precedes(u, t, order)
  {
    var s := SortTodos(m, order);
    var r := Limit(s, n);
    assert |s| == |m| by {
      assert |multiset(s)| == |multiset(m)|;
    }
    assert r == s[..|r|];
    SortedPrefix(s, |r|, order);
  }
}
