/**
 Exporting a subset (`export` in `services/subset.py`): INSERT statements, parents first, every selected row once.
 */
module SubsetExport {
  import opened Subset

  /** An INSERT statement. */
  datatype Insert = Insert(table: Table, rows: seq<Row>)

  /** One row as it is loaded. */
  datatype Load = Load(table: Table, row: Row)

  const ROWS_PER_INSERT := 200

  function LoadsOf(t: Table, rows: seq<Row>): (r: seq<Load>)
    ensures |r| == |rows| && forall i :: 0 <= i < |r| ==> r[i] == Load(t, rows[i])
  {
    seq(|rows|, i requires 0 <= i < |rows| => Load(t, rows[i]))
  }

  /** The rows in the order in which the statements load them. */
  function Loads(out: seq<Insert>): seq<Load> {
    if out == [] then [] else Loads(out[..|out| - 1]) + LoadsOf(out[|out| - 1].table, out[|out| - 1].rows)
  }

  /** `select * from ... where (COLS) in (VALUES)` */
  function RowsWhere(rows: seq<Row>, cols: Columns, values: seq<Tuple>): (r: seq<Row>)
    ensures forall row :: row in r <==> row in rows && Project(row, cols) in values
  {
    if rows == [] then []
    else
      assert forall row :: row in rows <==> row == rows[0] || row in rows[1..];
      (if Project(rows[0], cols) in values then [rows[0]] else []) + RowsWhere(rows[1..], cols, values)
  }

  ghost predicate Once<T(!new)>(s: seq<T>) {
    forall i, j :: 0 <= i < j < |s| ==> s[i] != s[j]
  }

  // --- the rows of one table -----------------------------------------------------------------------------------------

  /** A row that the column sets `keys` select. */
  ghost predicate PickedBy(sel: Selection, t: Table, keys: set<Columns>, row: Row) {
    exists cols :: cols in keys && Has(sel, Fact(t, cols, Project(row, cols)))
  }

  /** The distinct rows that any column set selects, whatever the chunks. */
  method TableRows(db: Database, sel: Selection, t: Table) returns (rows: seq<Row>)
    requires t in sel
    ensures Once(rows) && forall row :: row in rows <==> row in RowsOf(db, t) && Picked(sel, t, row)
  {
    hide Has, Project;
    rows := [];
    var left, done := sel[t].Keys, {};
    while left != {}
      invariant left + done == sel[t].Keys
      invariant Once(rows) && forall row :: row in rows <==> row in RowsOf(db, t) && PickedBy(sel, t, done, row)
      decreases left
    {
      var cols :| cols in left;
      var values := InSomeOrder(sel[t][cols]);
      ghost var before := rows;
      var i := 0;
      while i < |values|
        invariant 0 <= i <= |values| && Once(rows)
        invariant forall row :: row in rows <==>
            row in before || (row in RowsOf(db, t) && Project(row, cols) in values[..i])
      {
        var end := if i + CHUNK <= |values| then i + CHUNK else |values|;
        rows := AddDistinct(rows, RowsWhere(RowsOf(db, t), cols, values[i..end]));
        assert values[..end] == values[..i] + values[i..end];
        i := end;
      }
      assert values[..i] == values;
      OneMoreColumnSet(sel, t, done, cols, values);
      left, done := left - {cols}, done + {cols};
    }
    AllColumnSets(sel, t, done);
  }

  method AddDistinct(have: seq<Row>, found: seq<Row>) returns (rows: seq<Row>)
    requires Once(have)
    ensures Once(rows) && forall row :: row in rows <==> row in have || row in found
  {
    rows := have;
    for i := 0 to |found|
      invariant Once(rows) && forall row :: row in rows <==> row in have || row in found[..i]
    {
      if found[i] !in rows {
        rows := rows + [found[i]];
      }
      assert found[..i + 1] == found[..i] + [found[i]];
    }
    assert found[..|found|] == found;
  }

  lemma OneMoreColumnSet(sel: Selection, t: Table, done: set<Columns>, cols: Columns, values: seq<Tuple>)
    requires t in sel && cols in sel[t] && forall v :: v in values <==> v in sel[t][cols]
    ensures forall row :: PickedBy(sel, t, done + {cols}, row) <==>
        PickedBy(sel, t, done, row) || Project(row, cols) in values
  {
    hide Project;
    forall row
      ensures PickedBy(sel, t, done + {cols}, row) <==> PickedBy(sel, t, done, row) || Project(row, cols) in values
    {
      assert Has(sel, Fact(t, cols, Project(row, cols))) <==> Project(row, cols) in values;
    }
  }

  lemma AllColumnSets(sel: Selection, t: Table, done: set<Columns>)
    requires t in sel && done == sel[t].Keys
    ensures forall row :: PickedBy(sel, t, done, row) <==> Picked(sel, t, row)
  {
    hide Project;
  }

  // --- the statements ----------------------------------------------------------------------------------------------

  /** The loads are the selected rows of the tables in the order, each once, in the order of their tables. */
  ghost predicate IsExport(db: Database, sel: Selection, order: seq<Table>, loads: seq<Load>) {
    && Once(loads)
    && (forall l :: l in loads <==> l.table in order && l.row in RowsOf(db, l.table) && Picked(sel, l.table, l.row))
    && (forall i, j :: 0 <= i < j < |loads| ==> NotAfter(order, loads[i].table, loads[j].table))
  }

  ghost predicate NotAfter(order: seq<Table>, s: Table, t: Table) {
    forall a, b :: 0 <= a < |order| && 0 <= b < |order| && order[a] == s && order[b] == t ==> a <= b
  }

  ghost predicate Before(order: seq<Table>, s: Table, t: Table) {
    forall a, b :: 0 <= a < |order| && 0 <= b < |order| && order[a] == s && order[b] == t ==> a < b
  }

  /** The statements for the rows of one table. */
  method AddInserts(out: seq<Insert>, t: Table, rows: seq<Row>) returns (more: seq<Insert>)
    ensures Loads(more) == Loads(out) + LoadsOf(t, rows)
  {
    hide Loads, LoadsOf;
    more := out;
    var i := 0;
    NoLoads(t, Loads(out));
    assert rows[..0] == [];
    while i < |rows|
      invariant 0 <= i <= |rows|
      invariant Loads(more) == Loads(out) + LoadsOf(t, rows[..i])
    {
      var end := if i + ROWS_PER_INSERT <= |rows| then i + ROWS_PER_INSERT else |rows|;
      OneMoreInsert(more, t, rows[i..end]);
      LoadsOfConcat(t, rows[..i], rows[i..end], Loads(out));
      assert rows[..end] == rows[..i] + rows[i..end];
      more := more + [Insert(t, rows[i..end])];
      i := end;
    }
    assert rows[..i] == rows;
  }

  /** `export`, given the order of `parents_first`. */
  method Export(db: Database, sel: Selection, order: seq<Table>) returns (out: seq<Insert>)
    requires Once(order)
    ensures IsExport(db, sel, order, Loads(out))
  {
    hide IsExport, Picked, Once, Loads;
    out := [];
    assert IsExport(db, sel, order[..0], Loads(out)) by { EmptyExport(db, sel); }
    for k := 0 to |order|
      invariant IsExport(db, sel, order[..k], Loads(out))
    {
      var t := order[k];
      ghost var before := Loads(out);
      var rows := [];
      if t in sel {
        rows := TableRows(db, sel, t);
      } else {
        UnselectedTable(sel, t);
        assert Once(rows) by { NothingTwice(); }
      }
      out := AddInserts(out, t, rows);
      OneMoreTable(db, sel, order, k, before, rows);
    }
    assert order[..|order|] == order;
  }

  lemma EmptyExport(db: Database, sel: Selection)
    ensures IsExport(db, sel, [], Loads([]))
  {
  }

  lemma NothingTwice()
    ensures Once<Row>([])
  {
  }

  lemma UnselectedTable(sel: Selection, t: Table)
    requires t !in sel
    ensures forall row :: !Picked(sel, t, row)
  {
  }

  lemma NoLoads(t: Table, before: seq<Load>)
    ensures before + LoadsOf(t, []) == before
  {
  }

  lemma LoadsOfConcat(t: Table, a: seq<Row>, b: seq<Row>, before: seq<Load>)
    ensures before + LoadsOf(t, a + b) == before + LoadsOf(t, a) + LoadsOf(t, b)
  {
  }

  lemma OneMoreInsert(out: seq<Insert>, t: Table, rows: seq<Row>)
    ensures Loads(out + [Insert(t, rows)]) == Loads(out) + LoadsOf(t, rows)
  {
    assert (out + [Insert(t, rows)])[..|out|] == out;
  }

  lemma OneMoreTable(db: Database, sel: Selection, order: seq<Table>, k: nat, loads: seq<Load>, rows: seq<Row>)
    requires Once(order) && k < |order| && IsExport(db, sel, order[..k], loads) && Once(rows)
    requires forall row :: row in rows <==> row in RowsOf(db, order[k]) && Picked(sel, order[k], row)
    ensures IsExport(db, sel, order[..k + 1], loads + LoadsOf(order[k], rows))
  {
    hide Picked, LoadsOf;
    var t, more := order[k], LoadsOf(order[k], rows);
    var all := loads + more;
    assert forall a :: 0 <= a < k ==> order[a] != t;
    assert t !in order[..k];
    forall i, j | 0 <= i < j < |all| ensures all[i] != all[j] {
      if j >= |loads| {
        assert all[j] == more[j - |loads|] && all[j].table == t;
        if i < |loads| {
          assert loads[i] in loads;
        }
      }
    }
    forall l
      ensures l in all <==> l.table in order[..k + 1] && l.row in RowsOf(db, l.table) && Picked(sel, l.table, l.row)
    {
      LoadsOfHolds(t, rows, l);
      assert l in all <==> l in loads || l in more;
      assert order[..k + 1] == order[..k] + [t];
    }
    forall i, j | 0 <= i < j < |all| ensures NotAfter(order[..k + 1], all[i].table, all[j].table) {
      if j >= |loads| {
        assert all[j] == more[j - |loads|];
      } else {
        assert all[i] == loads[i] && all[j] == loads[j] && NotAfter(order[..k], loads[i].table, loads[j].table);
        assert loads[i] in loads && loads[j] in loads;
      }
    }
  }

  lemma LoadsOfHolds(t: Table, rows: seq<Row>, l: Load)
    ensures l in LoadsOf(t, rows) <==> l.table == t && l.row in rows
  {
    if l.table == t && l.row in rows {
      var i :| 0 <= i < |rows| && rows[i] == l.row;
      assert LoadsOf(t, rows)[i] == l;
    }
  }

  // --- parents first -----------------------------------------------------------------------------------------------

  /** `b` has a foreign key to the listed table `a`, which is to come first. */
  ghost predicate Arc(rel: Relations, a: Table, b: Table) {
    a != b && a in rel.tables && exists k: nat :: k < |rel.fks| && rel.fks[k].parent == a && rel.fks[k].child == b
  }

  ghost predicate IsArcPath(rel: Relations, path: seq<Table>) {
    forall i :: 0 <= i < |path| - 1 ==> Arc(rel, path[i], path[i + 1])
  }

  ghost predicate Cyclic(rel: Relations) {
    exists path :: |path| >= 2 && path[0] == path[|path| - 1] && IsArcPath(rel, path)
  }

  /** Every listed table and every table with an arc to it comes once, parents before children. */
  ghost predicate IsTopological(rel: Relations, order: seq<Table>) {
    && Once(order)
    && (forall t :: t in order <==> t in rel.tables || exists a :: Arc(rel, a, t))
    && (forall a, b :: Arc(rel, a, b) ==> Before(order, a, b))
  }

  /** `parents_first`: a topological order, or the tables as they are listed when there is a cycle. */
  ghost predicate IsParentsFirst(rel: Relations, order: seq<Table>) {
    if Cyclic(rel) then order == rel.tables else IsTopological(rel, order)
  }

  /** A walk along arcs never comes back to where it began. */
  lemma ArcsGoForward(rel: Relations, order: seq<Table>, path: seq<Table>)
    requires IsTopological(rel, order) && |path| >= 2 && IsArcPath(rel, path)
    ensures path[0] != path[|path| - 1]
  {
    hide Arc, Once;
    assert Arc(rel, path[0], path[1]);
    ArcEndsAreOrdered(rel, order, path[0], path[1]);
    var a :| 0 <= a < |order| && order[a] == path[0];
    for i := 1 to |path| - 1
      invariant path[i] in order && forall b :: 0 <= b < |order| && order[b] == path[i] ==> a < b
    {
      assert Arc(rel, path[i], path[i + 1]);
      ArcEndsAreOrdered(rel, order, path[i], path[i + 1]);
    }
  }

  /** With a cycle there is no such order, so falling back is all that is left. */
  lemma CyclesHaveNoOrder(rel: Relations)
    requires Cyclic(rel)
    ensures forall order :: !IsTopological(rel, order)
  {
    hide IsTopological, IsArcPath;
    var path :| |path| >= 2 && path[0] == path[|path| - 1] && IsArcPath(rel, path);
    forall order ensures !IsTopological(rel, order) {
      if IsTopological(rel, order) {
        ArcsGoForward(rel, order, path);
      }
    }
  }

  lemma ArcEndsAreOrdered(rel: Relations, order: seq<Table>, a: Table, b: Table)
    requires IsTopological(rel, order) && Arc(rel, a, b)
    ensures a in order && b in order && Before(order, a, b)
  {
  }

  /** A foreign key between tables puts its parent before its child. */
  lemma ParentBeforeChild(rel: Relations, order: seq<Table>, fk: ForeignKey)
    requires IsParentsFirst(rel, order) && !Cyclic(rel) && fk in rel.fks && fk.parent in rel.tables
    ensures fk.parent in order
    ensures fk.child != fk.parent ==> fk.child in order && Before(order, fk.parent, fk.child)
  {
    hide Cyclic, Once, Before;
    if fk.child != fk.parent {
      var k :| 0 <= k < |rel.fks| && rel.fks[k] == fk;
      assert Arc(rel, fk.parent, fk.child);
    }
  }

  lemma PickedIsLoaded(db: Database, sel: Selection, order: seq<Table>, loads: seq<Load>, t: Table, row: Row)
    requires IsExport(db, sel, order, loads) && t in order && row in RowsOf(db, t) && Picked(sel, t, row)
    ensures Load(t, row) in loads
  {
    hide Picked, Once, NotAfter;
  }

  lemma LoadedIsPicked(db: Database, sel: Selection, order: seq<Table>, loads: seq<Load>, j: nat)
    requires IsExport(db, sel, order, loads) && j < |loads|
    ensures loads[j].row in RowsOf(db, loads[j].table) && Picked(sel, loads[j].table, loads[j].row)
  {
    hide Picked, Once, NotAfter;
    assert loads[j] in loads;
  }

  lemma BeforeIsNotAfter(order: seq<Table>, s: Table, t: Table)
    requires s in order && t in order && Before(order, s, t)
    ensures !NotAfter(order, t, s) && s != t
  {
    var a :| 0 <= a < |order| && order[a] == s;
    var b :| 0 <= b < |order| && order[b] == t;
    assert a < b;
  }

  /** A load of an earlier table comes earlier. */
  lemma EarlierTableEarlierLoad(db: Database, sel: Selection, order: seq<Table>, loads: seq<Load>, i: nat, j: nat)
    requires IsExport(db, sel, order, loads) && i < |loads| && j < |loads|
    requires loads[i].table in order && loads[j].table in order && Before(order, loads[i].table, loads[j].table)
    ensures i < j
  {
    BeforeIsNotAfter(order, loads[i].table, loads[j].table);
    hide Picked, Once, Before, NotAfter;
    assert !NotAfter(order, loads[j].table, loads[i].table);
  }

  /** Without a cycle of foreign keys between tables every row that a loaded row refers to is loaded before it; a
      reference within its table, somewhere. */
  lemma ParentsAreLoadedFirst(db: Database, rel: Relations, q: Request, roots: seq<Table>, sel: Selection,
                              order: seq<Table>, loads: seq<Load>, j: nat, fk: ForeignKey, parent: Row) returns (i: nat)
    requires IsPlan(db, rel, q, roots, sel) && IsExport(db, sel, order, loads)
    requires IsParentsFirst(rel, order) && !Cyclic(rel)
    requires j < |loads| && fk in rel.fks && loads[j].table == fk.child && fk.parent in rel.tables
    requires NotNull(Project(loads[j].row, fk.columns))
    requires parent in RowsOf(db, fk.parent) && Project(parent, fk.ref) == Project(loads[j].row, fk.columns)
    ensures i < |loads| && loads[i] == Load(fk.parent, parent) && (fk.child != fk.parent ==> i < j)
  {
    hide IsPlan, Picked, Project, NotNull, IsExport, IsParentsFirst, Cyclic, Before, RowsOf;
    LoadedIsPicked(db, sel, order, loads, j);
    PlanIsReferentiallyComplete(db, rel, q, roots, sel, fk, loads[j].row, parent);
    ParentBeforeChild(rel, order, fk);
    PickedIsLoaded(db, sel, order, loads, fk.parent, parent);
    i :| 0 <= i < |loads| && loads[i] == Load(fk.parent, parent);
    if fk.child != fk.parent {
      EarlierTableEarlierLoad(db, sel, order, loads, i, j);
    }
  }

  /** A table the order leaves out is never loaded, whatever is selected in it. */
  lemma OnlyOrderedTablesAreLoaded(db: Database, sel: Selection, order: seq<Table>, loads: seq<Load>, t: Table)
    requires IsExport(db, sel, order, loads)
    ensures (exists i :: 0 <= i < |loads| && loads[i].table == t) <==>
            t in order && exists row :: row in RowsOf(db, t) && Picked(sel, t, row)
  {
    hide Picked, Once;
    if t in order && exists row :: row in RowsOf(db, t) && Picked(sel, t, row) {
      var row :| row in RowsOf(db, t) && Picked(sel, t, row);
      assert Load(t, row) in loads;
    }
    if exists i :: 0 <= i < |loads| && loads[i].table == t {
      var i :| 0 <= i < |loads| && loads[i].table == t;
      assert loads[i] in loads;
    }
  }
}
