/** Ordering the rows of a table with a self-referential foreign key before they are inserted. */
module RowSort {
  import opened Text

  /** One deserialized row: its primary key, the referenced key, and the remaining columns. */
  datatype Row = Row(id: string, parent: Option<string>, columns: map<string, string>)

  type Table = map<string, Row>

  /** The dictionary of rows by key; the last row wins when a key repeats. */
  function ById(rows: seq<Row>): (m: Table)
    ensures forall k :: k in m ==> m[k] in rows && m[k].id == k
    ensures m.Keys == Keys(rows)
  {
    if rows == [] then map[]
    else
      var init, last := rows[..|rows| - 1], rows[|rows| - 1];
      assert rows == init + [last];
      ById(init)[last.id := last]
  }

  function Keys(rows: seq<Row>): set<string>
  {
    set r | r in rows :: r.id
  }

  lemma KeysAppend(rows: seq<Row>, row: Row)
    ensures Keys(rows + [row]) == Keys(rows) + {row.id}
  {
  }

  /** The key `id` refers to, when that key is itself in the table. */
  function ParentIn(table: Table, id: string): (p: Option<string>)
    requires id in table
    ensures p.Some? ==> p.value in table
  {
    var p := table[id].parent;
    if p.Some? && p.value in table then p else None
  }

  /** The n-th key reached from `id` by following references inside the table. */
  function Up(table: Table, id: string, n: nat): (r: Option<string>)
    requires id in table
    ensures r.Some? ==> r.value in table
  {
    if n == 0 then Some(id)
    else
      var below := Up(table, id, n - 1);
      if below.None? then None else ParentIn(table, below.value)
  }

  /** The only reference cycles are rows that refer to themselves (thread roots, for instance). */
  ghost predicate OnlySelfLoops(table: Table)
  {
    forall id, n: nat :: id in table && n >= 1 && Up(table, id, n) == Some(id) ==> ParentIn(table, id) == Some(id)
  }

  ghost predicate DistinctKeys(rows: seq<Row>)
  {
    forall i, j :: 0 <= i < j < |rows| ==> rows[i].id != rows[j].id
  }

  /** Every row comes after the row it refers to, unless it refers to itself or outside the table. */
  ghost predicate ParentsFirst(table: Table, rows: seq<Row>)
  {
    rows != [] ==>
      var init, last := rows[..|rows| - 1], rows[|rows| - 1];
      ParentsFirst(table, init) && ParentPlaced(table, init, last.id)
  }

  ghost predicate ParentPlaced(table: Table, before: seq<Row>, id: string)
  {
    id in table
    && (var p := ParentIn(table, id); p.None? || p.value == id || p.value in Keys(before))
  }

  // ---- The depth-first visit ----

  /** The keys whose visit is still in progress, each the child of the next. */
  ghost predicate Chain(table: Table, path: seq<string>)
  {
    && (forall i :: 0 <= i < |path| ==> path[i] in table)
    && (forall i :: 0 <= i < |path| - 1 ==> ParentIn(table, path[i]) == Some(path[i + 1]))
    && (forall i, j :: 0 <= i < j < |path| ==> path[i] != path[j])
  }

  lemma {:induction false} ChainIsUp(table: Table, path: seq<string>, i: nat, n: nat)
    requires Chain(table, path) && i + n < |path|
    ensures Up(table, path[i], n) == Some(path[i + n])
  {
    if n > 0 {
      ChainIsUp(table, path, i, n - 1);
    }
  }

  /** A reference from the end of the chain back into it closes a cycle, so it is a self-loop. */
  lemma BackReferenceIsSelfLoop(table: Table, path: seq<string>, j: nat)
    requires Chain(table, path) && OnlySelfLoops(table) && j < |path|
    requires ParentIn(table, path[|path| - 1]) == Some(path[j])
    ensures j == |path| - 1
  {
    var n := |path| - 1 - j;
    ChainIsUp(table, path, j, n);
    assert j < |path| - 1 ==> ParentIn(table, path[j]) == Some(path[j + 1]);
    assert Up(table, path[j], n + 1) == Some(path[j]);
    assert ParentIn(table, path[j]) == Some(path[j]);
  }

  /** What holds between calls of the closure `visit`, for the chain of visits in progress. */
  ghost predicate Progress(table: Table, visited: set<string>, result: seq<Row>, path: seq<string>)
  {
    && (forall r :: r in result ==> r.id in table && table[r.id] == r)
    && DistinctKeys(result)
    && Chain(table, path)
    && visited == Keys(result) + (set id | id in path)
    && Keys(result) !! (set id | id in path)
    && (OnlySelfLoops(table) ==> ParentsFirst(table, result))
  }

  lemma EnterKeepsProgress(table: Table, visited: set<string>, result: seq<Row>, path: seq<string>, id: string)
    requires Progress(table, visited, result, path) && id in table && id !in visited
    requires path != [] ==> ParentIn(table, path[|path| - 1]) == Some(id)
    ensures Progress(table, visited + {id}, result, path + [id])
  {
  }

  lemma LeaveKeepsProgress(table: Table, visited: set<string>, result: seq<Row>, path: seq<string>, id: string)
    requires id in table && table[id].id == id
    requires Progress(table, visited, result, path + [id])
    requires var p := ParentIn(table, id); p.Some? ==> p.value in visited
    ensures Progress(table, visited, result + [table[id]], path)
  {
    var path', row := path + [id], table[id];
    assert id in path' && (set x | x in path') == (set x | x in path) + {id};
    assert id !in path by {
      assert path'[|path|] == id;
      assert forall i :: 0 <= i < |path| ==> path[i] == path'[i];
    }
    KeysAppend(result, row);
    assert forall r :: r in result ==> r.id in Keys(result);
    if OnlySelfLoops(table) {
      var p := ParentIn(table, id);
      if p.Some? && p.value !in Keys(result) {
        var j :| 0 <= j < |path'| && path'[j] == p.value;
        BackReferenceIsSelfLoop(table, path', j);
      }
      assert (result + [row])[..|result|] == result;
    }
    assert forall i :: 0 <= i < |path| ==> path[i] == path'[i];
  }

  /** The nested function `visit` together with the two variables it updates. */
  class Sorter {
    const table: Table
    var visited: set<string>
    var result: seq<Row>

    constructor (rows: seq<Row>)
      ensures table == ById(rows) && visited == {} && result == []
    {
      table := ById(rows);
      visited := {};
      result := [];
    }

    method Visit(id: string, ghost path: seq<string>)
      requires id in table && (forall k :: k in table ==> table[k].id == k)
      requires Progress(table, visited, result, path)
      requires path != [] ==> ParentIn(table, path[|path| - 1]) == Some(id)
      modifies this
      ensures Progress(table, visited, result, path)
      ensures id in visited && old(visited) <= visited
      ensures old(result) <= result
      decreases table.Keys - visited
    {
      if id in visited { return; }
      EnterKeepsProgress(table, visited, result, path, id);
      assert id in table.Keys - old(visited);
      visited := visited + {id};
      var row := table[id];
      if row.parent.Some? && row.parent.value in table {
        Visit(row.parent.value, path + [id]);
      }
      LeaveKeepsProgress(table, visited, result, path, id);
      result := result + [row];
    }

    /** One visit per row, in the given order. */
    method VisitAll(rows: seq<Row>)
      requires forall k :: k in table ==> table[k].id == k
      requires forall r :: r in rows ==> r.id in table
      requires Progress(table, visited, result, [])
      modifies this
      ensures Progress(table, visited, result, [])
      ensures forall k :: 0 <= k < |rows| ==> rows[k].id in visited
    {
      for i := 0 to |rows|
        invariant Progress(table, visited, result, [])
        invariant forall k :: 0 <= k < i ==> rows[k].id in visited
      {
        assert rows[i] in rows;
        Visit(rows[i].id, []);
      }
    }
  }

  /** The sort: visit every row, then hand out the rows in the order their visits ended. */
  method TopologicalSort(rows: seq<Row>) returns (sorted: seq<Row>)
    ensures DistinctKeys(sorted) && Keys(sorted) == Keys(rows)
    ensures forall r :: r in sorted ==> r.id in ById(rows) && ById(rows)[r.id] == r
    ensures DistinctKeys(rows) ==> multiset(sorted) == multiset(rows)
    ensures ParentsFirst(ById(rows), sorted) <==> OnlySelfLoops(ById(rows))
  {
    var sorter := new Sorter(rows);
    assert forall r :: r in rows ==> r.id in Keys(rows);
    sorter.VisitAll(rows);
    sorted := sorter.result;
    FinishedSort(rows, sorter.visited, sorted);
  }

  lemma FinishedSort(rows: seq<Row>, visited: set<string>, sorted: seq<Row>)
    requires Progress(ById(rows), visited, sorted, [])
    requires forall k :: 0 <= k < |rows| ==> rows[k].id in visited
    ensures DistinctKeys(sorted) && Keys(sorted) == Keys(rows)
    ensures forall r :: r in sorted ==> r.id in ById(rows) && ById(rows)[r.id] == r
    ensures DistinctKeys(rows) ==> multiset(sorted) == multiset(rows)
    ensures ParentsFirst(ById(rows), sorted) <==> OnlySelfLoops(ById(rows))
  {
    var none: seq<string> := [];
    assert (set id | id in none) == {};
    if ParentsFirst(ById(rows), sorted) {
      OrderForbidsCycles(ById(rows), sorted);
    }
    if DistinctKeys(rows) {
      UniqueKeysSameRows(rows, sorted);
    }
  }

  // ---- Cycles cannot be ordered ----

  lemma {:induction false} PlacedParentsAreClosed(table: Table, rows: seq<Row>)
    requires ParentsFirst(table, rows) && Keys(rows) <= table.Keys
    ensures forall q :: q in Keys(rows) && ParentIn(table, q).Some? ==> ParentIn(table, q).value in Keys(rows)
  {
    if rows != [] {
      var init, last := rows[..|rows| - 1], rows[|rows| - 1];
      assert rows == init + [last];
      KeysAppend(init, last);
      PlacedParentsAreClosed(table, init);
    }
  }

  lemma {:induction false} UpStaysBefore(table: Table, before: seq<Row>, id: string, n: nat)
    requires ParentsFirst(table, before) && Keys(before) <= table.Keys && n >= 1
    requires ParentPlaced(table, before, id) && ParentIn(table, id) != Some(id)
    ensures var r := Up(table, id, n); r.Some? ==> r.value in Keys(before)
  {
    if n == 1 {
      assert Up(table, id, 0) == Some(id);
    } else {
      UpStaysBefore(table, before, id, n - 1);
      PlacedParentsAreClosed(table, before);
    }
  }

  /** An order with parents first can only exist when there is no longer cycle. */
  lemma {:induction false} OrderForbidsCycles(table: Table, rows: seq<Row>)
    requires ParentsFirst(table, rows) && DistinctKeys(rows) && Keys(rows) <= table.Keys
    ensures forall id, n: nat ::
      (id in Keys(rows) && n >= 1 && Up(table, id, n) == Some(id) ==> ParentIn(table, id) == Some(id))
  {
    if rows != [] {
      var init, last := rows[..|rows| - 1], rows[|rows| - 1];
      assert rows == init + [last];
      KeysAppend(init, last);
      OrderForbidsCycles(table, init);
      assert last.id !in Keys(init);
      forall n: nat | n >= 1 && Up(table, last.id, n) == Some(last.id)
        ensures ParentIn(table, last.id) == Some(last.id)
      {
        if ParentIn(table, last.id) != Some(last.id) {
          UpStaysBefore(table, init, last.id, n);
        }
      }
    }
  }

  // ---- Same rows ----

  lemma {:induction false} DistinctKeysById(rows: seq<Row>)
    requires DistinctKeys(rows)
    ensures forall r :: r in rows ==> r.id in ById(rows) && ById(rows)[r.id] == r
  {
    if rows != [] {
      var init, last := rows[..|rows| - 1], rows[|rows| - 1];
      assert rows == init + [last];
      DistinctKeysById(init);
      assert forall r :: r in init ==> r.id != last.id;
    }
  }

  lemma {:induction false} CountsOfDistinct(rows: seq<Row>)
    requires DistinctKeys(rows)
    ensures forall x :: multiset(rows)[x] == if x in rows then 1 else 0
  {
    if rows != [] {
      var init, last := rows[..|rows| - 1], rows[|rows| - 1];
      assert rows == init + [last];
      CountsOfDistinct(init);
    }
  }

  lemma UniqueKeysSameRows(rows: seq<Row>, sorted: seq<Row>)
    requires DistinctKeys(rows) && DistinctKeys(sorted) && Keys(sorted) == Keys(rows)
    requires forall r :: r in sorted ==> r.id in ById(rows) && ById(rows)[r.id] == r
    ensures multiset(sorted) == multiset(rows)
  {
    DistinctKeysById(rows);
    forall r
      ensures r in rows <==> r in sorted
    {
      if r in rows {
        assert r.id in Keys(sorted);
        var s :| s in sorted && s.id == r.id;
      }
    }
    CountsOfDistinct(rows);
    CountsOfDistinct(sorted);
  }
}
