/**
 * The recipe store of the cooking-chart server: a table of recipes, each a row
 * with an id, a unique name, its content, the time it was last written and its
 * position in the recipe list (`sort_order`). The SQL statements become
 * functions over the sequence of rows; the loops that issue one UPDATE per
 * entry become methods with loop invariants. The SQLite flavour of the store is
 * modelled: a NULL `sort_order` sorts before every number.
 */
module RecipeStore {
  import opened Wrappers
  import Strings
  import Seqs
  import opened JsValue

  datatype Row = Row(id: int, name: string, content: Value, updatedAt: int, sortOrder: Option<int>)

  /** The HTTP outcome of a request: 200, 400, 403, 404, or 500 for an uncaught exception. */
  datatype Status = Ok | BadRequest | Forbidden | NotFound | ServerError

  function NameOf(r: Row): string {
    r.name
  }

  function IdOf(r: Row): int {
    r.id
  }

  function Names(rows: seq<Row>): set<string> {
    set r | r in rows :: r.name
  }

  /** The UNIQUE constraint on `name`. */
  predicate UniqueNames(rows: seq<Row>) {
    Seqs.KeysUnique(rows, NameOf)
  }

  /** The PRIMARY KEY constraint on `id`. */
  predicate UniqueIds(rows: seq<Row>) {
    Seqs.KeysUnique(rows, IdOf)
  }

  /** A key that an UPDATE of `sort_order` does not change. */
  ghost predicate IgnoresOrder<K>(key: Row -> K) {
    forall r: Row, o: Option<int> :: key(r.(sortOrder := o)) == key(r)
  }

  // ---------------------------------------------------------------- requests

  /** Python truthiness of a parsed JSON value; a missing value is `None`. */
  predicate PyTruthy(v: Value) {
    match v
    case Undefined => false
    case Null => false
    case Bool(b) => b
    case Num(n) => n != 0
    case Str(s) => s != ""
    case Arr(items) => items != []
    case Obj(fields) => fields != map[]
  }

  /** `request.get_json(silent=True) or {}`; an unreadable body arrives as `Null`. */
  function Payload(body: Value): Value {
    if PyTruthy(body) then body else Obj(map[])
  }

  /**
   * `_require_editor_key`: the request goes ahead only when an editor token is
   * configured and the trimmed `key` parameter ("" when absent) equals it.
   */
  predicate KeyAccepted(token: string, key: string) {
    token != "" && Strings.Trim(key) == token
  }

  /** Without a configured token every key is refused. */
  lemma NoTokenNoEditing(key: string)
    ensures !KeyAccepted("", key)
  {
  }

  /** The configured token is trimmed, so surrounding blanks in the key do not matter. */
  lemma PaddedKeyAccepted(env: string, key: string)
    requires Strings.Trim(env) != "" && Strings.Trim(key) == Strings.Trim(env)
    ensures KeyAccepted(Strings.Trim(env), key)
  {
  }

  /**
   * The checks of `save_recipe` in order: the editor key, a payload that is an
   * object (`.get` on anything else raises), a name that is a string if
   * truthy (`.strip()` on anything else raises), non-blank once stripped, and
   * content that is an object.
   */
  function SaveCheck(token: string, key: string, body: Value): Status {
    if !KeyAccepted(token, key) then Forbidden
    else
      var p := Payload(body);
      if !p.Obj? then ServerError
      else
        var nv := Get(p, "name");
        if PyTruthy(nv) && !nv.Str? then ServerError
        else if !PyTruthy(nv) || Strings.Trim(nv.s) == "" then BadRequest
        else if !Get(p, "content").Obj? then BadRequest
        else Ok
  }

  /** The name saved under: the payload's name, stripped. */
  function SaveName(body: Value): string {
    var nv := Get(Payload(body), "name");
    if nv.Str? then Strings.Trim(nv.s) else ""
  }

  /** A save that passes its checks has a non-blank name and object content. */
  lemma SaveCheckOk(token: string, key: string, body: Value)
    ensures SaveCheck(token, key, body) == Ok <==>
      KeyAccepted(token, key) && body.Obj? && SaveName(body) != "" && Get(body, "content").Obj?
  {
  }

  /**
   * The checks of `update_recipe_order`: the editor key, an object payload, and
   * `names` a list of strings none of which is blank once stripped. An empty
   * list passes.
   */
  function OrderCheck(token: string, key: string, body: Value): Status {
    if !KeyAccepted(token, key) then Forbidden
    else
      var p := Payload(body);
      if !p.Obj? then ServerError
      else
        var ns := Get(p, "names");
        if !ns.Arr? then BadRequest
        else if exists i :: 0 <= i < |ns.items| && !(ns.items[i].Str? && Strings.Trim(ns.items[i].s) != "") then BadRequest
        else Ok
  }

  /** `[n.strip() for n in names]`. */
  function Normalized(body: Value): (r: seq<string>)
    ensures OrderCheck("t", "t", body) == Ok ==> forall i :: 0 <= i < |r| ==> r[i] != ""
  {
    var ns := Get(Payload(body), "names");
    if !ns.Arr? then []
    else seq(|ns.items|, i requires 0 <= i < |ns.items| => if ns.items[i].Str? then Strings.Trim(ns.items[i].s) else "")
  }

  /**
   * The names of an accepted reorder are the submitted ones, one for one and
   * in order, each stripped and none of them blank.
   */
  lemma NormalizedAccepted(token: string, key: string, body: Value)
    requires OrderCheck(token, key, body) == Ok
    ensures var ns := Get(body, "names");
      ns.Arr? && |Normalized(body)| == |ns.items|
      && forall i :: 0 <= i < |ns.items| ==>
           ns.items[i].Str? && Normalized(body)[i] == Strings.Trim(ns.items[i].s) && Normalized(body)[i] != ""
  {
  }

  /** An empty list of names is accepted although the error message says non-empty. */
  lemma EmptyOrderAccepted(token: string)
    requires token != "" && Strings.IsTrimmed(token)
    ensures OrderCheck(token, token, Obj(map["names" := Arr([])])) == Ok
  {
    Strings.TrimmedIsFixed(token);
  }

  // ---------------------------------------------------------------- ordering

  /** The largest `sort_order` in the table, None when every one is NULL. */
  function MaxOrder(rows: seq<Row>): (r: Option<int>)
    ensures r.None? <==> forall x :: x in rows ==> x.sortOrder.None?
    ensures r.Some? ==> forall x :: x in rows && x.sortOrder.Some? ==> x.sortOrder.value <= r.value
    ensures r.Some? ==> exists x :: x in rows && x.sortOrder == r
  {
    if rows == [] then None
    else
      var init := rows[..|rows| - 1];
      var last := rows[|rows| - 1];
      assert rows == init + [last];
      var m := MaxOrder(init);
      if last.sortOrder.None? then m
      else if m.Some? && m.value >= last.sortOrder.value then m
      else last.sortOrder
  }

  /** `COALESCE(MAX(sort_order), 0) + 1`, which is also `COALESCE(MAX(sort_order) + 1, 1)`. */
  function NextOrder(rows: seq<Row>): (r: int)
    ensures forall x :: x in rows && x.sortOrder.Some? ==> x.sortOrder.value < r
  {
    match MaxOrder(rows)
    case Some(m) => m + 1
    case None => 1
  }

  predicate OrderLess(a: Option<int>, b: Option<int>) {
    (a.None? && b.Some?) || (a.Some? && b.Some? && a.value < b.value)
  }

  /** `ORDER BY sort_order ASC, id ASC`, with NULL first. */
  predicate KeyLess(a: Row, b: Row) {
    OrderLess(a.sortOrder, b.sortOrder) || (a.sortOrder == b.sortOrder && a.id < b.id)
  }

  predicate Sorted(s: seq<Row>) {
    forall i, j :: 0 <= i < j < |s| ==> KeyLess(s[i], s[j])
  }

  function Insert(x: Row, s: seq<Row>): (r: seq<Row>)
    ensures multiset(r) == multiset(s) + multiset{x}
  {
    if s == [] then [x]
    else if KeyLess(x, s[0]) then [x] + s
    else
      assert s == [s[0]] + s[1..];
      [s[0]] + Insert(x, s[1..])
  }

  /** The rows a SELECT returns with `ORDER BY sort_order ASC, id ASC`. */
  function SortByKey(xs: seq<Row>): (r: seq<Row>)
    ensures multiset(r) == multiset(xs)
  {
    if xs == [] then []
    else
      assert xs == [xs[0]] + xs[1..];
      Insert(xs[0], SortByKey(xs[1..]))
  }

  /** The sort key orders any two rows with different ids, one way only. */
  lemma KeyLessTotal(a: Row, b: Row)
    ensures a.id != b.id ==> KeyLess(a, b) || KeyLess(b, a)
    ensures !(KeyLess(a, b) && KeyLess(b, a)) && !KeyLess(a, a)
  {
  }

  lemma KeyLessTrans(a: Row, b: Row, c: Row)
    requires KeyLess(a, b) && KeyLess(b, c)
    ensures KeyLess(a, c)
  {
  }

  lemma {:induction false} InsertSorted(x: Row, s: seq<Row>)
    requires Sorted(s) && forall y :: y in s ==> y.id != x.id
    ensures Sorted(Insert(x, s))
  {
    if s != [] {
      if KeyLess(x, s[0]) {
        forall j | 0 < j < |s| ensures KeyLess(x, s[j]) {
          KeyLessTrans(x, s[0], s[j]);
        }
      } else {
        assert s[1..] == s[1..] && forall y :: y in s[1..] ==> y in s;
        InsertSorted(x, s[1..]);
        var rest := Insert(x, s[1..]);
        forall z | z in rest ensures KeyLess(s[0], z) {
          InsertFrom(x, s[1..], z);
          if z == x {
            KeyLessTotal(x, s[0]);
          } else {
            var k :| 0 <= k < |s[1..]| && s[1..][k] == z;
            assert s[k + 1] == z;
          }
        }
      }
    }
  }

  /** Every row of an insertion is the inserted row or one of the rows it went into. */
  lemma InsertFrom(x: Row, s: seq<Row>, z: Row)
    requires z in Insert(x, s)
    ensures z == x || z in s
  {
    assert z in multiset(Insert(x, s));
  }

  lemma {:induction false} InsertUnique<K>(x: Row, s: seq<Row>, key: Row -> K)
    requires Seqs.KeysUnique(s, key) && forall y :: y in s ==> key(y) != key(x)
    ensures Seqs.KeysUnique(Insert(x, s), key)
  {
    if s != [] && !KeyLess(x, s[0]) {
      var tail := s[1..];
      assert forall y :: y in tail ==> y in s;
      InsertUnique(x, tail, key);
      var rest := Insert(x, tail);
      forall z | z in rest ensures key(s[0]) != key(z) {
        InsertFrom(x, tail, z);
        if z != x {
          var k :| 0 <= k < |tail| && tail[k] == z;
          assert s[k + 1] == z;
        }
      }
      ConsUnique(s[0], rest, key);
    }
  }

  /** A row put in front of rows whose keys differ from its own keeps the keys distinct. */
  lemma ConsUnique<K>(y: Row, rest: seq<Row>, key: Row -> K)
    requires Seqs.KeysUnique(rest, key) && forall z :: z in rest ==> key(y) != key(z)
    ensures Seqs.KeysUnique([y] + rest, key)
  {
    var r := [y] + rest;
    forall i, j | 0 <= i < j < |r| ensures key(r[i]) != key(r[j]) {
      assert r[j] == rest[j - 1] && rest[j - 1] in rest;
      if i > 0 {
        assert r[i] == rest[i - 1];
      }
    }
  }

  /** Sorting rows with distinct ids gives them in strictly increasing key order, keeping any key distinct. */
  lemma {:induction false} SortSorted<K>(xs: seq<Row>, key: Row -> K)
    requires UniqueIds(xs) && Seqs.KeysUnique(xs, key)
    ensures Sorted(SortByKey(xs)) && UniqueIds(SortByKey(xs)) && Seqs.KeysUnique(SortByKey(xs), key)
  {
    if xs != [] {
      var tail := xs[1..];
      assert forall i :: 0 <= i < |tail| ==> tail[i] == xs[i + 1];
      SortSorted(tail, key);
      var rest := SortByKey(tail);
      forall y | y in rest ensures y.id != xs[0].id && key(y) != key(xs[0]) {
        assert y in multiset(tail);
        var k :| 0 <= k < |tail| && tail[k] == y;
        assert xs[k + 1] == y;
      }
      InsertSorted(xs[0], rest);
      InsertUnique(xs[0], rest, IdOf);
      InsertUnique(xs[0], rest, key);
    }
  }

  /** The index of the last occurrence of `k`: the value an UPDATE loop leaves behind. */
  function LastIndex<K(==)>(ks: seq<K>, k: K): (r: nat)
    requires k in ks
    ensures r < |ks| && ks[r] == k && forall j :: r < j < |ks| ==> ks[j] != k
  {
    if ks[|ks| - 1] == k then |ks| - 1
    else
      assert ks == ks[..|ks| - 1] + [ks[|ks| - 1]];
      LastIndex(ks[..|ks| - 1], k)
  }

  /** One `UPDATE t SET sort_order = v WHERE key = k`. */
  function SetOrder<K(==)>(rows: seq<Row>, key: Row -> K, k: K, v: int): (r: seq<Row>)
    ensures |r| == |rows|
  {
    seq(|rows|, i requires 0 <= i < |rows| => if key(rows[i]) == k then rows[i].(sortOrder := Some(v)) else rows[i])
  }

  /**
   * What `for i, k in enumerate(keys, start=start): UPDATE ... SET sort_order = i
   * WHERE key = k` leaves: a row whose key is listed gets the position of its
   * last occurrence, every other row is as it was.
   */
  function Renumber<K(==)>(rows: seq<Row>, keys: seq<K>, key: Row -> K, start: int): (r: seq<Row>)
    ensures |r| == |rows|
  {
    seq(|rows|, i requires 0 <= i < |rows| =>
      if key(rows[i]) in keys then rows[i].(sortOrder := Some(start + LastIndex(keys, key(rows[i])))) else rows[i])
  }

  lemma RenumberSnoc<K>(rows: seq<Row>, keys: seq<K>, key: Row -> K, start: int, k: K)
    requires IgnoresOrder(key)
    ensures SetOrder(Renumber(rows, keys, key, start), key, k, start + |keys|) == Renumber(rows, keys + [k], key, start)
  {
    var ks := keys + [k];
    forall i | 0 <= i < |rows|
      ensures SetOrder(Renumber(rows, keys, key, start), key, k, start + |keys|)[i] == Renumber(rows, ks, key, start)[i]
    {
      var x := key(rows[i]);
      assert key(Renumber(rows, keys, key, start)[i]) == x;
      if x != k && x in keys {
        assert ks[..|keys|] == keys;
        assert LastIndex(ks, x) == LastIndex(keys, x);
      }
    }
  }

  /** The UPDATE loop, one statement per key. */
  method NumberFrom<K(==)>(rows: seq<Row>, keys: seq<K>, key: Row -> K, start: int) returns (out: seq<Row>)
    requires IgnoresOrder(key)
    ensures out == Renumber(rows, keys, key, start)
  {
    out := rows;
    var i := 0;
    assert Renumber(rows, keys[..0], key, start) == rows;
    while i < |keys|
      invariant 0 <= i <= |keys|
      invariant out == Renumber(rows, keys[..i], key, start)
    {
      RenumberSnoc(rows, keys[..i], key, start, keys[i]);
      assert keys[..i] + [keys[i]] == keys[..i + 1];
      out := SetOrder(out, key, keys[i], start + i);
      i := i + 1;
    }
    assert keys[..|keys|] == keys;
  }

  /** An UPDATE for a name no row has changes nothing: the `existing` guard only skips such names. */
  lemma SetOrderMissing(rows: seq<Row>, name: string, v: int)
    requires name !in Names(rows)
    ensures SetOrder(rows, NameOf, name, v) == rows
  {
    forall i | 0 <= i < |rows| ensures SetOrder(rows, NameOf, name, v)[i] == rows[i] {
      assert rows[i] in rows && rows[i].name in Names(rows);
      assert NameOf(rows[i]) == rows[i].name;
    }
  }

  // ---------------------------------------------------------------- the operations as values

  /**
   * `INSERT ... ON CONFLICT(name) DO UPDATE`: a known name gets the new content
   * and time and keeps its id and position; a new one is appended with the next
   * free id and position `COALESCE(MAX(sort_order) + 1, 1)`.
   */
  function Upsert(rows: seq<Row>, name: string, content: Value, now: int, newId: int): seq<Row> {
    if name in Names(rows) then
      seq(|rows|, i requires 0 <= i < |rows| =>
        if rows[i].name == name then rows[i].(content := content, updatedAt := now) else rows[i])
    else rows + [Row(newId, name, content, now, Some(NextOrder(rows)))]
  }

  /** `DELETE FROM t WHERE name = ?`. */
  function Delete(rows: seq<Row>, name: string): seq<Row> {
    Seqs.Filter(rows, (r: Row) => r.name != name)
  }

  /** The rows the order request did not list, as the tail SELECT returns them. */
  function Unlisted(rows: seq<Row>, names: seq<string>): seq<Row> {
    SortByKey(Seqs.Filter(rows, (r: Row) => r.name !in names))
  }

  /**
   * `update_recipe_order`: listed names take their 1-based position, the last
   * duplicate winning; the other rows follow from `len(names) + 1` in their
   * previous order.
   */
  function Reordered(rows: seq<Row>, names: seq<string>): seq<Row> {
    var listed := Renumber(rows, names, NameOf, 1);
    Renumber(listed, Seqs.Map(Unlisted(listed, names), NameOf), NameOf, |names| + 1)
  }

  /** The NULL rows of `init_db`, by ascending id. */
  function NullRows(rows: seq<Row>): seq<Row> {
    SortByKey(Seqs.Filter(rows, (r: Row) => r.sortOrder.None?))
  }

  /** `init_db`'s back-fill: NULL positions become consecutive values after the largest one, by id. */
  function BackFilled(rows: seq<Row>): seq<Row> {
    Renumber(rows, Seqs.Map(NullRows(rows), IdOf), IdOf, NextOrder(rows))
  }

  /** The two UPDATE loops of `update_recipe_order`, with the tail SELECT between them. */
  method ReorderRows(rows: seq<Row>, names: seq<string>) returns (r: seq<Row>)
    ensures r == Reordered(rows, names)
  {
    KeysIgnoreOrder();
    var listed := NumberFrom(rows, names, NameOf, 1);
    var tail := Seqs.Map(Unlisted(listed, names), NameOf);
    r := NumberFrom(listed, tail, NameOf, |names| + 1);
  }

  /** `init_db`'s back-fill loop, after the SELECT of the NULL rows by id. */
  method BackFillRows(rows: seq<Row>) returns (r: seq<Row>)
    ensures r == BackFilled(rows)
  {
    KeysIgnoreOrder();
    var nulls := NullRows(rows);
    r := NumberFrom(rows, Seqs.Map(nulls, IdOf), IdOf, NextOrder(rows));
  }

  // ---------------------------------------------------------------- the table

  /** The recipe table with the editor token the server was started with. */
  class Store {
    var rows: seq<Row>
    /** The id SQLite's AUTOINCREMENT hands out next. */
    var nextRowId: int
    const token: string

    predicate Valid()
      reads this
    {
      UniqueNames(rows) && UniqueIds(rows) && forall r :: r in rows ==> r.id < nextRowId
    }

    /** The server's start: `EDITOR_TOKEN` is the environment value, stripped. */
    constructor (env: string, table: seq<Row>, nextId: int)
      requires UniqueNames(table) && UniqueIds(table) && forall r :: r in table ==> r.id < nextId
      ensures Valid() && rows == table && nextRowId == nextId && token == Strings.Trim(env)
    {
      rows := table;
      nextRowId := nextId;
      token := Strings.Trim(env);
    }

    /** `init_db`'s back-fill loop. */
    method InitDb()
      requires Valid()
      modifies this`rows
      ensures Valid() && rows == BackFilled(old(rows))
    {
      BackFillKeepsRows(rows);
      rows := BackFillRows(rows);
    }

    /** `save_recipe`. */
    method SaveRecipe(key: string, body: Value, now: int) returns (status: Status)
      requires Valid()
      modifies this`rows, this`nextRowId
      ensures Valid() && status == SaveCheck(token, key, body)
      ensures status != Ok ==> rows == old(rows) && nextRowId == old(nextRowId)
      ensures status == Ok ==> rows == Upsert(old(rows), SaveName(body), Get(body, "content"), now, old(nextRowId))
    {
      status := SaveCheck(token, key, body);
      if status != Ok {
        return;
      }
      var name := SaveName(body);
      var content := Get(body, "content");
      UpsertKeepsUnique(rows, name, content, now, nextRowId);
      var inserted := name !in Names(rows);
      rows := Upsert(rows, name, content, now, nextRowId);
      if inserted {
        nextRowId := nextRowId + 1;
      }
    }

    /** `delete_recipe`: 404 when no row has the name. */
    method DeleteRecipe(key: string, name: string) returns (status: Status)
      requires Valid()
      modifies this`rows
      ensures Valid()
      ensures !KeyAccepted(token, key) ==> status == Forbidden && rows == old(rows)
      ensures KeyAccepted(token, key) ==> rows == Delete(old(rows), name)
      ensures KeyAccepted(token, key) ==> status == if name in Names(old(rows)) then Ok else NotFound
    {
      if !KeyAccepted(token, key) {
        return Forbidden;
      }
      var found := name in Names(rows);
      DeleteSpec(rows, name);
      rows := Delete(rows, name);
      status := if found then Ok else NotFound;
    }

    /** `update_recipe_order`: the listed names first, then the rest. */
    method UpdateRecipeOrder(key: string, body: Value) returns (status: Status)
      requires Valid()
      modifies this`rows
      ensures Valid() && status == OrderCheck(token, key, body)
      ensures status != Ok ==> rows == old(rows)
      ensures status == Ok ==> rows == Reordered(old(rows), Normalized(body))
    {
      status := OrderCheck(token, key, body);
      if status != Ok {
        return;
      }
      var names := Normalized(body);
      ReorderKeepsRows(rows, names);
      rows := ReorderRows(rows, names);
    }
  }

  // ---------------------------------------------------------------- properties

  /** The two columns the UPDATE loops select rows by are not changed by those UPDATEs. */
  lemma KeysIgnoreOrder()
    ensures IgnoresOrder(NameOf) && IgnoresOrder(IdOf)
  {
  }

  /** Renumbering changes positions only. */
  lemma RenumberKeepsRows<K>(rows: seq<Row>, keys: seq<K>, key: Row -> K, start: int)
    ensures var r := Renumber(rows, keys, key, start);
      forall i :: 0 <= i < |rows| ==> r[i].(sortOrder := rows[i].sortOrder) == rows[i]
  {
  }

  /** Rows that agree but for their positions have the same names and ids. */
  lemma SameRowsButOrder(rows: seq<Row>, r: seq<Row>)
    requires |r| == |rows| && forall i :: 0 <= i < |rows| ==> r[i].(sortOrder := rows[i].sortOrder) == rows[i]
    ensures UniqueNames(rows) ==> UniqueNames(r)
    ensures UniqueIds(rows) ==> UniqueIds(r)
    ensures forall x :: x in r ==> exists y :: y in rows && y.id == x.id
  {
    forall i | 0 <= i < |rows| ensures r[i].id == rows[i].id && r[i].name == rows[i].name {
      assert r[i].(sortOrder := rows[i].sortOrder).id == r[i].id;
      assert r[i].(sortOrder := rows[i].sortOrder).name == r[i].name;
    }
    forall x | x in r ensures exists y :: y in rows && y.id == x.id {
      var i :| 0 <= i < |r| && r[i] == x;
      assert rows[i].id == x.id;
    }
  }

  lemma BackFillKeepsRows(rows: seq<Row>)
    ensures var r := BackFilled(rows);
      |r| == |rows| && forall i :: 0 <= i < |rows| ==> r[i].(sortOrder := rows[i].sortOrder) == rows[i]
    ensures var r := BackFilled(rows);
      (UniqueNames(rows) ==> UniqueNames(r)) && (UniqueIds(rows) ==> UniqueIds(r)) &&
      forall x :: x in r ==> exists y :: y in rows && y.id == x.id
  {
    RenumberKeepsRows(rows, Seqs.Map(NullRows(rows), IdOf), IdOf, NextOrder(rows));
    SameRowsButOrder(rows, BackFilled(rows));
  }

  lemma ReorderKeepsRows(rows: seq<Row>, names: seq<string>)
    ensures var r := Reordered(rows, names);
      |r| == |rows| && forall i :: 0 <= i < |rows| ==> r[i].(sortOrder := rows[i].sortOrder) == rows[i]
    ensures var r := Reordered(rows, names);
      (UniqueNames(rows) ==> UniqueNames(r)) && (UniqueIds(rows) ==> UniqueIds(r)) &&
      forall x :: x in r ==> exists y :: y in rows && y.id == x.id
  {
    var listed := Renumber(rows, names, NameOf, 1);
    RenumberKeepsRows(rows, names, NameOf, 1);
    RenumberKeepsRows(listed, Seqs.Map(Unlisted(listed, names), NameOf), NameOf, |names| + 1);
    SameRowsButOrder(rows, Reordered(rows, names));
  }

  /** A new row keeps names and ids unique when its id is above every existing id. */
  lemma UpsertKeepsUnique(rows: seq<Row>, name: string, content: Value, now: int, newId: int)
    requires UniqueNames(rows) && UniqueIds(rows) && forall r :: r in rows ==> r.id < newId
    ensures var r := Upsert(rows, name, content, now, newId);
      UniqueNames(r) && UniqueIds(r) && forall x :: x in r ==> x.id < newId + (if name in Names(rows) then 0 else 1)
  {
    var r := Upsert(rows, name, content, now, newId);
    if name in Names(rows) {
      forall i | 0 <= i < |rows| ensures r[i].id == rows[i].id && r[i].name == rows[i].name {
      }
      forall x | x in r ensures x.id < newId {
        var i :| 0 <= i < |r| && r[i] == x;
        assert rows[i] in rows;
      }
    } else {
      forall i | 0 <= i < |rows| ensures rows[i].name != name && rows[i].id < newId {
        assert rows[i] in rows;
      }
    }
  }

  /**
   * Saving under a known name changes only that row's content and time; its
   * id and position stay.
   */
  lemma UpsertExisting(rows: seq<Row>, name: string, content: Value, now: int, newId: int, i: int)
    requires 0 <= i < |rows| && rows[i].name == name
    ensures var r := Upsert(rows, name, content, now, newId);
      |r| == |rows| && r[i] == rows[i].(content := content, updatedAt := now) &&
      forall j :: 0 <= j < |rows| && rows[j].name != name ==> r[j] == rows[j]
  {
    assert rows[i] in rows;
  }

  /** Saving under a new name appends one row, placed after every positioned row. */
  lemma UpsertNew(rows: seq<Row>, name: string, content: Value, now: int, newId: int)
    requires name !in Names(rows)
    ensures var r := Upsert(rows, name, content, now, newId);
      r[..|rows|] == rows && |r| == |rows| + 1 && r[|rows|].name == name && r[|rows|].content == content &&
      r[|rows|].sortOrder.Some? && forall x :: x in rows && x.sortOrder.Some? ==> x.sortOrder.value < r[|rows|].sortOrder.value
  {
  }

  /** The first recipe saved into an empty table is at position 1. */
  lemma FirstSaveAtOne(name: string, content: Value, now: int, newId: int)
    ensures Upsert([], name, content, now, newId) == [Row(newId, name, content, now, Some(1))]
  {
  }

  /** Deleting removes exactly the row with the name, and keeps the others in order. */
  lemma DeleteSpec(rows: seq<Row>, name: string)
    requires UniqueNames(rows) && UniqueIds(rows)
    ensures var r := Delete(rows, name);
      Names(r) == Names(rows) - {name} && UniqueNames(r) && UniqueIds(r) &&
      (forall x :: x in r <==> x in rows && x.name != name) &&
      (name !in Names(rows) ==> r == rows)
  {
    var p := (r: Row) => r.name != name;
    var r := Seqs.Filter(rows, p);
    Seqs.FilterMembers(rows, p);
    Seqs.FilterKeysUnique(rows, NameOf, p);
    Seqs.FilterKeysUnique(rows, IdOf, p);
    if name !in Names(rows) {
      forall x | x in rows ensures p(x) {
      }
      Seqs.FilterAll(rows, p);
    }
    forall n | n in Names(rows) - {name} ensures n in Names(r) {
      var x :| x in rows && x.name == n;
      assert x in r;
    }
  }

  /** In a sorted run with distinct keys, a row with the smaller sort key sits at the smaller key position. */
  lemma SortedPositions<K>(s: seq<Row>, key: Row -> K, x: Row, y: Row)
    requires Sorted(s) && x in s && y in s && KeyLess(x, y) && Seqs.KeysUnique(s, key)
    ensures key(x) in Seqs.Map(s, key) && key(y) in Seqs.Map(s, key)
    ensures LastIndex(Seqs.Map(s, key), key(x)) < LastIndex(Seqs.Map(s, key), key(y))
  {
    var ks := Seqs.Map(s, key);
    var ix :| 0 <= ix < |s| && s[ix] == x;
    var iy :| 0 <= iy < |s| && s[iy] == y;
    assert ks[ix] == key(x) && ks[iy] == key(y);
    PositionOfKey(s, key, ix);
    PositionOfKey(s, key, iy);
    KeyLessTotal(x, y);
  }

  /** With distinct keys, the last position of a row's key is the row's own position. */
  lemma PositionOfKey<K>(s: seq<Row>, key: Row -> K, i: int)
    requires Seqs.KeysUnique(s, key) && 0 <= i < |s|
    ensures key(s[i]) in Seqs.Map(s, key) && LastIndex(Seqs.Map(s, key), key(s[i])) == i
  {
    var ks := Seqs.Map(s, key);
    assert ks[i] == key(s[i]);
  }

  /** A row is among the NULL rows exactly when its position is NULL. */
  lemma NullRowsMembers(rows: seq<Row>)
    ensures forall x :: x in NullRows(rows) <==> x in rows && x.sortOrder.None?
  {
    var keep := (r: Row) => r.sortOrder.None?;
    var nn := Seqs.Filter(rows, keep);
    Seqs.FilterMembers(rows, keep);
    forall x ensures x in NullRows(rows) <==> x in nn {
      assert x in NullRows(rows) <==> x in multiset(NullRows(rows));
      assert x in nn <==> x in multiset(nn);
    }
  }

  /** An id listed by the back-fill belongs to a NULL row. */
  lemma NullIds(rows: seq<Row>, i: int)
    requires UniqueIds(rows) && 0 <= i < |rows|
    ensures rows[i].id in Seqs.Map(NullRows(rows), IdOf) <==> rows[i].sortOrder.None?
  {
    var nulls := NullRows(rows);
    var ids := Seqs.Map(nulls, IdOf);
    NullRowsMembers(rows);
    if rows[i].sortOrder.None? {
      assert rows[i] in nulls;
      var k :| 0 <= k < |nulls| && nulls[k] == rows[i];
      assert ids[k] == rows[i].id;
    }
  }

  /**
   * After the back-fill every row has a position; a row that had one keeps it,
   * and a NULL row gets one above every position there was.
   */
  lemma BackFillAbove(rows: seq<Row>, i: int)
    requires UniqueIds(rows) && 0 <= i < |rows|
    ensures BackFilled(rows)[i].sortOrder.Some?
    ensures rows[i].sortOrder.Some? ==> BackFilled(rows)[i] == rows[i]
    ensures rows[i].sortOrder.None? ==> forall x :: x in rows && x.sortOrder.Some? ==>
      x.sortOrder.value < BackFilled(rows)[i].sortOrder.value
  {
    NullIds(rows, i);
  }

  /** Among back-filled rows, the one with the smaller id gets the smaller position. */
  lemma BackFillIdOrder(rows: seq<Row>, i: int, j: int)
    requires UniqueIds(rows) && 0 <= i < |rows| && 0 <= j < |rows|
    requires rows[i].sortOrder.None? && rows[j].sortOrder.None? && rows[i].id < rows[j].id
    ensures BackFilled(rows)[i].sortOrder.Some? && BackFilled(rows)[j].sortOrder.Some?
    ensures BackFilled(rows)[i].sortOrder.value < BackFilled(rows)[j].sortOrder.value
  {
    var p := (r: Row) => r.sortOrder.None?;
    var nn := Seqs.Filter(rows, p);
    var nulls := NullRows(rows);
    NullIds(rows, i);
    NullIds(rows, j);
    NullRowsMembers(rows);
    Seqs.FilterKeysUnique(rows, IdOf, p);
    SortSorted(nn, IdOf);
    SortedPositions(nulls, IdOf, rows[i], rows[j]);
  }

  /** A row is among the unlisted ones exactly when its name is not listed. */
  lemma UnlistedMembers(rows: seq<Row>, names: seq<string>)
    ensures forall x :: x in Unlisted(rows, names) <==> x in rows && x.name !in names
  {
    var keep := (r: Row) => r.name !in names;
    var nn := Seqs.Filter(rows, keep);
    Seqs.FilterMembers(rows, keep);
    forall x ensures x in Unlisted(rows, names) <==> x in nn {
      assert x in Unlisted(rows, names) <==> x in multiset(Unlisted(rows, names));
      assert x in nn <==> x in multiset(nn);
    }
  }

  /** The names the tail loop renumbers are exactly the table's unlisted names. */
  lemma TailNames(rows: seq<Row>, names: seq<string>, n: string)
    ensures n in Seqs.Map(Unlisted(rows, names), NameOf) <==> n in Names(rows) && n !in names
  {
    var u := Unlisted(rows, names);
    UnlistedMembers(rows, names);
    if n in Seqs.Map(u, NameOf) {
      var k :| 0 <= k < |u| && Seqs.Map(u, NameOf)[k] == n;
      assert u[k] in u;
    }
    if n in Names(rows) && n !in names {
      var x :| x in rows && x.name == n;
      assert x in u;
      var k :| 0 <= k < |u| && u[k] == x;
      assert Seqs.Map(u, NameOf)[k] == n;
    }
  }

  /** A listed name that exists takes the position of its last occurrence in the list, counted from 1. */
  lemma ReorderListed(rows: seq<Row>, names: seq<string>, i: int)
    requires 0 <= i < |rows| && rows[i].name in names
    ensures Reordered(rows, names)[i].sortOrder == Some(1 + LastIndex(names, rows[i].name))
  {
    var listed := Renumber(rows, names, NameOf, 1);
    assert NameOf(rows[i]) == rows[i].name;
    assert listed[i] == rows[i].(sortOrder := Some(1 + LastIndex(names, rows[i].name)));
    TailNames(listed, names, listed[i].name);
    assert NameOf(listed[i]) !in Seqs.Map(Unlisted(listed, names), NameOf);
  }

  /** An unlisted row takes a position after every listed one, within the length of the table. */
  lemma ReorderUnlisted(rows: seq<Row>, names: seq<string>, i: int)
    requires 0 <= i < |rows| && rows[i].name !in names
    ensures var r := Reordered(rows, names)[i].sortOrder;
      r.Some? && |names| < r.value <= |names| + |rows|
  {
    var listed := Renumber(rows, names, NameOf, 1);
    assert NameOf(rows[i]) == rows[i].name;
    assert listed[i] == rows[i] && listed[i] in listed;
    TailNames(listed, names, listed[i].name);
    var u := Unlisted(listed, names);
    var nn := Seqs.Filter(listed, (r: Row) => r.name !in names);
    assert |u| == |multiset(u)| == |multiset(nn)| == |nn| <= |rows|;
    assert NameOf(listed[i]) in Seqs.Map(u, NameOf);
  }

  /** Two unlisted rows keep their relative order. */
  lemma ReorderKeepsTailOrder(rows: seq<Row>, names: seq<string>, i: int, j: int)
    requires UniqueNames(rows) && UniqueIds(rows) && 0 <= i < |rows| && 0 <= j < |rows|
    requires rows[i].name !in names && rows[j].name !in names && KeyLess(rows[i], rows[j])
    ensures Reordered(rows, names)[i].sortOrder.Some? && Reordered(rows, names)[j].sortOrder.Some?
    ensures Reordered(rows, names)[i].sortOrder.value < Reordered(rows, names)[j].sortOrder.value
  {
    var listed := Renumber(rows, names, NameOf, 1);
    RenumberKeepsRows(rows, names, NameOf, 1);
    SameRowsButOrder(rows, listed);
    var p := (r: Row) => r.name !in names;
    var nn := Seqs.Filter(listed, p);
    Seqs.FilterKeysUnique(listed, IdOf, p);
    Seqs.FilterKeysUnique(listed, NameOf, p);
    SortSorted(nn, NameOf);
    UnlistedMembers(listed, names);
    assert listed[i] == rows[i] && listed[j] == rows[j];
    assert listed[i] in listed && listed[j] in listed;
    SortedPositions(Unlisted(listed, names), NameOf, rows[i], rows[j]);
  }
}
