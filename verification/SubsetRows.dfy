/**
 What a plan selects, said of rows and foreign keys: sampled rows, downward their children by primary key if those are
 asked for, and upward what any of them refers to; all of that and nothing else.
 */
module SubsetRows {
  import opened Wrappers
  import opened Subset

  lemma NotNullIsNoNull()
    ensures forall t :: NotNull(t) <==> Null !in t
  {
  }

  // --- one step, on rows -------------------------------------------------------------------------------------------

  predicate Selects(f: Fact, t: Table, row: Row) {
    f.table == t && Project(row, f.columns) == f.values
  }

  /** The row that `f` selects refers to what `g` selects by the foreign key. */
  predicate RefersBy(db: Database, fk: ForeignKey, row: Row, f: Fact, g: Fact) {
    && row in RowsOf(db, fk.child) && Selects(f, fk.child, row)
    && g == Fact(fk.parent, fk.ref, Project(row, fk.columns)) && Null !in g.values
  }

  ghost predicate Refers(db: Database, rel: Relations, f: Fact, g: Fact) {
    exists fk, row :: fk in rel.fks && RefersBy(db, fk, row, f, g)
  }

  /** A row of another table refers by the foreign key to what `f` selects, and `g` selects that row by its key. */
  predicate ChildBy(db: Database, rel: Relations, fk: ForeignKey, row: Row, f: Fact, g: Fact) {
    && fk.parent == f.table && fk.child != f.table && fk.ref == f.columns
    && row in RowsOf(db, fk.child) && Project(row, fk.columns) == f.values
    && fk.child in rel.pk && rel.pk[fk.child] != []
    && g == Fact(fk.child, rel.pk[fk.child], Project(row, rel.pk[fk.child])) && Null !in g.values
  }

  ghost predicate Child(db: Database, rel: Relations, f: Fact, g: Fact) {
    exists fk, row :: fk in rel.fks && ChildBy(db, rel, fk, row, f, g)
  }

  /** Following foreign keys upward is going to what a row refers to. */
  lemma UpIsRefers(db: Database, rel: Relations, f: Fact, g: Fact)
    ensures Step(Up, db, rel, f, g) <==> Refers(db, rel, f, g)
  {
    hide Project, NotNull;
    NotNullIsNoNull();
    if Step(Up, db, rel, f, g) {
      var k: nat :| k < |rel.fks| && Leads(Up, db, rel, k, f, g);
      var l := LookupOf(Up, rel, rel.fks[k], f.table, f.columns).value;
      var row :| Finds(db, l, f.values, row, g);
      assert rel.fks[k] in rel.fks && RefersBy(db, rel.fks[k], row, f, g);
    }
    if Refers(db, rel, f, g) {
      var fk, row :| fk in rel.fks && RefersBy(db, fk, row, f, g);
      var k :| 0 <= k < |rel.fks| && rel.fks[k] == fk;
      assert Finds(db, Lookup(fk.child, f.columns, fk.columns, fk.parent, fk.ref), f.values, row, g);
      assert Leads(Up, db, rel, k, f, g);
    }
  }

  /** Following foreign keys downward is going to the children. */
  lemma DownIsChild(db: Database, rel: Relations, f: Fact, g: Fact)
    ensures Step(Down, db, rel, f, g) <==> Child(db, rel, f, g)
  {
    hide Project, NotNull;
    NotNullIsNoNull();
    if Step(Down, db, rel, f, g) {
      var k: nat :| k < |rel.fks| && Leads(Down, db, rel, k, f, g);
      var l := LookupOf(Down, rel, rel.fks[k], f.table, f.columns).value;
      var row :| Finds(db, l, f.values, row, g);
      assert rel.fks[k] in rel.fks && ChildBy(db, rel, rel.fks[k], row, f, g);
    }
    if Child(db, rel, f, g) {
      var fk, row :| fk in rel.fks && ChildBy(db, rel, fk, row, f, g);
      var k :| 0 <= k < |rel.fks| && rel.fks[k] == fk;
      var pk := rel.pk[fk.child];
      assert Finds(db, Lookup(fk.child, fk.columns, pk, fk.child, pk), f.values, row, g);
      assert Leads(Down, db, rel, k, f, g);
    }
  }

  // --- samples -----------------------------------------------------------------------------------------------------

  /** A row drawn from a root table with a positive number of draws, selected by the table's key or as a whole, without
      a null in what it is selected by. */
  ghost predicate Drawn(db: Database, rel: Relations, q: Request, roots: seq<Table>, t: Table, row: Row,
                        cols: Columns) {
    && t in roots && Null !in Project(row, cols)
    && (if t in rel.pk && rel.pk[t] != [] then cols == rel.pk[t]
        else if t in db.columns then cols == db.columns[t] else cols == [])
    && exists n: int :: n != 0 && IsSampleSize(|RowsOf(db, t)|, q.ratio, q.maxRows, n) && row in q.sample(t, n)
  }

  /** The given share of the rows, rounded up, at most the limit; nothing of an empty table. */
  predicate IsSampleSize(total: nat, ratio: real, maxRows: int, n: int) {
    if total == 0 then n == 0
    else
      var share := total as real * ratio;
      n <= maxRows && n as real < share + 1.0 && (n == maxRows || share <= n as real)
  }

  lemma SampleSizeIs(total: nat, ratio: real, maxRows: int)
    ensures forall n :: IsSampleSize(total, ratio, maxRows, n) <==> n == SampleSize(total, ratio, maxRows)
  {
    var share := total as real * ratio;
    assert Ceil(share) as real < share + 1.0 && share <= Ceil(share) as real;
  }

  ghost predicate IsDrawn(db: Database, rel: Relations, q: Request, roots: seq<Table>, f: Fact) {
    exists row :: Drawn(db, rel, q, roots, f.table, row, f.columns) && f.values == Project(row, f.columns)
  }

  lemma SampledIsDrawn(db: Database, rel: Relations, q: Request, roots: seq<Table>, f: Fact)
    ensures (exists i :: 0 <= i < |roots| && Sampled(db, rel, q, roots[i], f)) <==>
              IsDrawn(db, rel, q, roots, f)
  {
    hide NotNull, Project, SampleSize, IsSampleSize;
    NotNullIsNoNull();
    SampleSizeIs(|RowsOf(db, f.table)|, q.ratio, q.maxRows);
    if i :| 0 <= i < |roots| && Sampled(db, rel, q, roots[i], f) {
      var row :| row in q.sample(f.table, SampleSize(|RowsOf(db, f.table)|, q.ratio, q.maxRows)) &&
                 f.values == Project(row, f.columns);
      assert Drawn(db, rel, q, roots, f.table, row, f.columns);
    }
    if row :| Drawn(db, rel, q, roots, f.table, row, f.columns) && f.values == Project(row, f.columns) {
      var i :| 0 <= i < |roots| && roots[i] == f.table;
      assert Sampled(db, rel, q, roots[i], f);
    }
  }

  // --- whole plans -------------------------------------------------------------------------------------------------

  ghost predicate IsDescent(db: Database, rel: Relations, path: seq<Fact>) {
    path != [] && forall i :: 0 <= i < |path| - 1 ==> Child(db, rel, path[i], path[i + 1])
  }

  ghost predicate IsAscent(db: Database, rel: Relations, path: seq<Fact>) {
    path != [] && forall i :: 0 <= i < |path| - 1 ==> Refers(db, rel, path[i], path[i + 1])
  }

  /** From a drawn row down from child to child, which only a plan with children does, and then up along references. */
  ghost predicate Derives(db: Database, rel: Relations, q: Request, roots: seq<Table>, down: seq<Fact>, up: seq<Fact>,
                          g: Fact) {
    && IsDescent(db, rel, down) && IsAscent(db, rel, up) && down[|down| - 1] == up[0] && up[|up| - 1] == g
    && IsDrawn(db, rel, q, roots, down[0]) && (q.withChildren || |down| == 1)
  }

  lemma UpPathsAscend(db: Database, rel: Relations, path: seq<Fact>)
    requires path != []
    ensures IsPath(Up, db, rel, path) <==> IsAscent(db, rel, path)
  {
    hide Step, Refers;
    forall f, g ensures Step(Up, db, rel, f, g) <==> Refers(db, rel, f, g) {
      UpIsRefers(db, rel, f, g);
    }
  }

  lemma DownPathsDescend(db: Database, rel: Relations, path: seq<Fact>)
    requires path != []
    ensures IsPath(Down, db, rel, path) <==> IsDescent(db, rel, path)
  {
    hide Step, Child;
    forall f, g ensures Step(Down, db, rel, f, g) <==> Child(db, rel, f, g) {
      DownIsChild(db, rel, f, g);
    }
  }

  lemma SeedsAreDrawn(db: Database, rel: Relations, q: Request, roots: seq<Table>, seeds: Selection)
    requires AreSeeds(db, rel, q, roots, seeds)
    ensures forall f :: Has(seeds, f) <==> IsDrawn(db, rel, q, roots, f)
  {
    hide Has, Sampled, IsDrawn, Drawn;
    forall f ensures Has(seeds, f) <==> IsDrawn(db, rel, q, roots, f) {
      SampledIsDrawn(db, rel, q, roots, f);
    }
  }

  /** A plan selects exactly what such paths lead to. */
  lemma PlanIsWhatPathsLeadTo(db: Database, rel: Relations, q: Request, roots: seq<Table>, sel: Selection, g: Fact)
    requires IsPlan(db, rel, q, roots, sel)
    ensures Has(sel, g) <==> exists down, up :: Derives(db, rel, q, roots, down, up, g)
  {
    hide Has, IsClosure, AreSeeds, Derives;
    var seeds, middle :|
      && AreSeeds(db, rel, q, roots, seeds)
      && (if q.withChildren then IsClosure(Down, db, rel, seeds, middle) else middle == seeds)
      && IsClosure(Up, db, rel, middle, sel);
    if Has(sel, g) {
      var down, up := PathsTo(db, rel, q, roots, seeds, middle, sel, g);
    }
    if down, up :| Derives(db, rel, q, roots, down, up, g) {
      PathsAreSelected(db, rel, q, roots, seeds, middle, sel, down, up, g);
    }
  }

  lemma PathsTo(db: Database, rel: Relations, q: Request, roots: seq<Table>, seeds: Selection, middle: Selection,
                sel: Selection, g: Fact)
    returns (down: seq<Fact>, up: seq<Fact>)
    requires AreSeeds(db, rel, q, roots, seeds) && IsClosure(Up, db, rel, middle, sel) && Has(sel, g)
    requires if q.withChildren then IsClosure(Down, db, rel, seeds, middle) else middle == seeds
    ensures Derives(db, rel, q, roots, down, up, g)
  {
    hide Has, IsDrawn, IsPath, IsAscent, IsDescent, AreSeeds;
    assert Reachable(Up, db, rel, middle, g);
    up :| up != [] && Has(middle, up[0]) && up[|up| - 1] == g && IsPath(Up, db, rel, up);
    UpPathsAscend(db, rel, up);
    SeedsAreDrawn(db, rel, q, roots, seeds);
    if q.withChildren {
      assert Reachable(Down, db, rel, seeds, up[0]);
      down :| down != [] && Has(seeds, down[0]) && down[|down| - 1] == up[0] && IsPath(Down, db, rel, down);
      DownPathsDescend(db, rel, down);
    } else {
      down := [up[0]];
      OneIsADescent(db, rel, up[0]);
    }
  }

  lemma OneIsADescent(db: Database, rel: Relations, f: Fact)
    ensures IsDescent(db, rel, [f])
  {
  }

  lemma PathsAreSelected(db: Database, rel: Relations, q: Request, roots: seq<Table>, seeds: Selection,
                         middle: Selection, sel: Selection, down: seq<Fact>, up: seq<Fact>, g: Fact)
    requires AreSeeds(db, rel, q, roots, seeds) && IsClosure(Up, db, rel, middle, sel)
    requires if q.withChildren then IsClosure(Down, db, rel, seeds, middle) else middle == seeds
    requires Derives(db, rel, q, roots, down, up, g)
    ensures Has(sel, g)
  {
    hide Has, IsDrawn, IsPath, AreSeeds, Child, Refers;
    SeedsAreDrawn(db, rel, q, roots, seeds);
    UpPathsAscend(db, rel, up);
    if q.withChildren {
      DownPathsDescend(db, rel, down);
      assert Reachable(Down, db, rel, seeds, up[0]);
    }
    assert Reachable(Up, db, rel, middle, g);
  }

  // --- children of selected rows -----------------------------------------------------------------------------------

  datatype Place = Place(table: Table, row: Row, key: Columns)

  /** The row at `b` has a key without a null and refers by that key to the row at `a`, of another table. */
  predicate IsChildRow(db: Database, rel: Relations, fk: ForeignKey, a: Place, b: Place) {
    && fk.parent == a.table && fk.ref == a.key && fk.child == b.table && a.table != b.table
    && b.row in RowsOf(db, b.table) && Project(b.row, fk.columns) == Project(a.row, a.key)
    && b.table in rel.pk && b.key == rel.pk[b.table] && b.key != [] && Null !in Project(b.row, b.key)
  }

  ghost predicate HasChildRow(db: Database, rel: Relations, a: Place, b: Place) {
    exists fk :: fk in rel.fks && IsChildRow(db, rel, fk, a, b)
  }

  ghost predicate IsLineage(db: Database, rel: Relations, places: seq<Place>) {
    places != [] && forall i :: 0 <= i < |places| - 1 ==> HasChildRow(db, rel, places[i], places[i + 1])
  }

  function FactsOf(places: seq<Place>): (r: seq<Fact>)
    ensures |r| == |places|
    ensures forall i :: 0 <= i < |r| ==>
              r[i] == Fact(places[i].table, places[i].key, Project(places[i].row, places[i].key))
  {
    seq(|places|, i requires 0 <= i < |places| =>
      Fact(places[i].table, places[i].key, Project(places[i].row, places[i].key)))
  }

  /** With children asked for, the children of a drawn row, their children and so on are selected. */
  lemma ChildrenAreSelected(db: Database, rel: Relations, q: Request, roots: seq<Table>, sel: Selection,
                            places: seq<Place>)
    requires IsPlan(db, rel, q, roots, sel) && q.withChildren && IsLineage(db, rel, places)
    requires Drawn(db, rel, q, roots, places[0].table, places[0].row, places[0].key)
    ensures var last := places[|places| - 1]; Picked(sel, last.table, last.row)
  {
    hide IsPlan, Project, NotNull, Has, Drawn, Child, HasChildRow;
    var path := FactsOf(places);
    forall i | 0 <= i < |path| - 1 ensures Child(db, rel, path[i], path[i + 1]) {
      IsChild(db, rel, places[i], places[i + 1], path[i], path[i + 1]);
    }
    var g := path[|path| - 1];
    assert Derives(db, rel, q, roots, path, [g], g);
    PlanIsWhatPathsLeadTo(db, rel, q, roots, sel, g);
  }

  lemma IsChild(db: Database, rel: Relations, a: Place, b: Place, f: Fact, g: Fact)
    requires HasChildRow(db, rel, a, b)
    requires f == Fact(a.table, a.key, Project(a.row, a.key)) && g == Fact(b.table, b.key, Project(b.row, b.key))
    ensures Child(db, rel, f, g)
  {
    hide Project, NotNull;
    var fk :| fk in rel.fks && IsChildRow(db, rel, fk, a, b);
    assert ChildBy(db, rel, fk, b.row, f, g);
  }

  /** Without, every selected row is a drawn one or what a chain of references upward from one leads to. */
  lemma OnlyReferencesWithoutChildren(db: Database, rel: Relations, q: Request, roots: seq<Table>, sel: Selection,
                                      t: Table, row: Row)
    returns (up: seq<Fact>)
    requires IsPlan(db, rel, q, roots, sel) && !q.withChildren && Picked(sel, t, row)
    ensures IsAscent(db, rel, up) && IsDrawn(db, rel, q, roots, up[0]) && Selects(up[|up| - 1], t, row)
  {
    hide IsPlan, Project, NotNull, Has, IsDrawn, IsAscent, IsDescent;
    var cols :| Has(sel, Fact(t, cols, Project(row, cols)));
    var g := Fact(t, cols, Project(row, cols));
    PlanIsWhatPathsLeadTo(db, rel, q, roots, sel, g);
    var down: seq<Fact>;
    down, up :| Derives(db, rel, q, roots, down, up, g);
  }
}
