/**
 Referentially complete subsets (`services/subset.py`): sampled root rows, the rows of their children when asked for,
 and every row a foreign key needs. The database answers queries; a query is a selection and a projection.
 */
module Subset {
  import opened Wrappers

  type Table = string
  type Columns = seq<string>

  datatype Value = Null | Text(text: string)

  type Tuple = seq<Value>
  type Row = map<string, Value>

  datatype ForeignKey = ForeignKey(child: Table, columns: Columns, parent: Table, ref: Columns)

  datatype Database = Database(rows: map<Table, seq<Row>>, columns: map<Table, Columns>)

  datatype Relations = Relations(tables: seq<Table>, pk: map<Table, Columns>, fks: seq<ForeignKey>)

  /** `selection[table][columns]`: the value tuples that select rows of the table by those columns. */
  type Selection = map<Table, map<Columns, set<Tuple>>>

  /** One tuple of a selection. */
  datatype Fact = Fact(table: Table, columns: Columns, values: Tuple)

  predicate Has(sel: Selection, f: Fact) {
    f.table in sel && f.columns in sel[f.table] && f.values in sel[f.table][f.columns]
  }

  function Cell(r: Row, c: string): Value {
    if c in r then r[c] else Null
  }

  function Project(r: Row, cols: Columns): (t: Tuple)
    ensures |t| == |cols| && forall i :: 0 <= i < |t| ==> t[i] == Cell(r, cols[i])
  {
    seq(|cols|, i requires 0 <= i < |cols| => Cell(r, cols[i]))
  }

  predicate NotNull(t: Tuple) {
    forall i :: 0 <= i < |t| ==> t[i] != Null
  }

  function RowsOf(db: Database, t: Table): seq<Row> {
    if t in db.rows then db.rows[t] else []
  }

  /** `select OUT from ... where (COLS) in (VALUES)` */
  function Query(rows: seq<Row>, cols: Columns, values: seq<Tuple>, out: Columns): (r: seq<Tuple>)
    ensures forall row :: row in rows && Project(row, cols) in values ==> Project(row, out) in r
    ensures forall v :: v in r ==> exists row :: row in rows && Project(row, cols) in values && v == Project(row, out)
  {
    if rows == [] then []
    else
      var rest := Query(rows[1..], cols, values, out);
      if Project(rows[0], cols) in values then [Project(rows[0], out)] + rest else rest
  }

  // --- following foreign keys --------------------------------------------------------------------------------------

  /** Upward: the parents of selected rows. Downward: the children of selected keys, by their primary keys. */
  datatype Direction = Up | Down

  /** A query on `table` by the columns `on`, whose `out` columns select rows of `target` by the columns `key`. */
  datatype Lookup = Lookup(table: Table, on: Columns, out: Columns, target: Table, key: Columns)

  predicate HasKey(rel: Relations, t: Table) {
    t in rel.pk && rel.pk[t] != []
  }

  /** The query that a foreign key asks for, for tuples of this table and these columns. */
  function LookupOf(dir: Direction, rel: Relations, fk: ForeignKey, t: Table, cols: Columns): Option<Lookup> {
    match dir
    case Up => if fk.child == t then Some(Lookup(t, cols, fk.columns, fk.parent, fk.ref)) else None
    case Down =>
      if fk.parent == t && fk.child != t && fk.ref == cols && HasKey(rel, fk.child)
      then Some(Lookup(fk.child, fk.columns, rel.pk[fk.child], fk.child, rel.pk[fk.child]))
      else None
  }

  /** `row` turns one tuple of a lookup into another. */
  predicate Finds(db: Database, l: Lookup, values: Tuple, row: Row, g: Fact) {
    && row in RowsOf(db, l.table) && Project(row, l.on) == values
    && g == Fact(l.target, l.key, Project(row, l.out)) && NotNull(g.values)
  }

  /** Foreign key `k` leads from `f` to `g`. */
  ghost predicate Leads(dir: Direction, db: Database, rel: Relations, k: nat, f: Fact, g: Fact)
    requires k < |rel.fks|
  {
    var l := LookupOf(dir, rel, rel.fks[k], f.table, f.columns);
    l.Some? && exists row :: Finds(db, l.value, f.values, row, g)
  }

  ghost predicate Step(dir: Direction, db: Database, rel: Relations, f: Fact, g: Fact) {
    exists k: nat :: k < |rel.fks| && Leads(dir, db, rel, k, f, g)
  }

  ghost predicate IsPath(dir: Direction, db: Database, rel: Relations, path: seq<Fact>) {
    forall i :: 0 <= i < |path| - 1 ==> Step(dir, db, rel, path[i], path[i + 1])
  }

  /** The tuple can be got to from the selection `seeds` along foreign keys. */
  ghost predicate Reachable(dir: Direction, db: Database, rel: Relations, seeds: Selection, f: Fact) {
    exists path :: path != [] && Has(seeds, path[0]) && path[|path| - 1] == f && IsPath(dir, db, rel, path)
  }

  ghost predicate Settled(dir: Direction, db: Database, rel: Relations, sel: Selection, f: Fact) {
    forall g :: Step(dir, db, rel, f, g) ==> Has(sel, g)
  }

  ghost predicate Closed(dir: Direction, db: Database, rel: Relations, sel: Selection) {
    forall f :: Has(sel, f) ==> Settled(dir, db, rel, sel, f)
  }

  ghost predicate Within(a: Selection, b: Selection) {
    forall f :: Has(a, f) ==> Has(b, f)
  }

  /** The selection holds exactly what can be got to from the seeds. */
  ghost predicate IsClosure(dir: Direction, db: Database, rel: Relations, seeds: Selection, sel: Selection) {
    forall f :: Has(sel, f) <==> Reachable(dir, db, rel, seeds, f)
  }

  lemma ReachesSeeds(dir: Direction, db: Database, rel: Relations, seeds: Selection, f: Fact)
    requires Has(seeds, f)
    ensures Reachable(dir, db, rel, seeds, f)
  {
    assert IsPath(dir, db, rel, [f]);
    assert [f][0] == f && [f][|[f]| - 1] == f;
  }

  lemma ReachesOn(dir: Direction, db: Database, rel: Relations, seeds: Selection, f: Fact, g: Fact)
    requires Reachable(dir, db, rel, seeds, f) && Step(dir, db, rel, f, g)
    ensures Reachable(dir, db, rel, seeds, g)
  {
    hide Step, Has;
    var path :| path != [] && Has(seeds, path[0]) && path[|path| - 1] == f && IsPath(dir, db, rel, path);
    var longer := path + [g];
    forall i | 0 <= i < |longer| - 1 ensures Step(dir, db, rel, longer[i], longer[i + 1]) {
      if i < |path| - 1 {
        assert Step(dir, db, rel, path[i], path[i + 1]);
      }
    }
    assert IsPath(dir, db, rel, longer) && longer[0] == path[0] && longer[|longer| - 1] == g;
  }

  /** A closed selection that has the seeds has everything reachable from them: the closure is the least one. */
  lemma {:induction false} ClosedHoldsReachable(dir: Direction, db: Database, rel: Relations, seeds: Selection,
                                                sel: Selection, f: Fact)
    requires Within(seeds, sel) && Closed(dir, db, rel, sel) && Reachable(dir, db, rel, seeds, f)
    ensures Has(sel, f)
  {
    hide Step, Has;
    var path :| path != [] && Has(seeds, path[0]) && path[|path| - 1] == f && IsPath(dir, db, rel, path);
    for i := 0 to |path| - 1
      invariant Has(sel, path[i])
    {
      assert Settled(dir, db, rel, sel, path[i]);
      assert Step(dir, db, rel, path[i], path[i + 1]);
    }
  }

  /** The closure is closed, holds the seeds, lies within every closed selection that does, and is unique. */
  lemma ClosureIsLeast(dir: Direction, db: Database, rel: Relations, seeds: Selection, sel: Selection)
    requires IsClosure(dir, db, rel, seeds, sel)
    ensures Within(seeds, sel) && Closed(dir, db, rel, sel)
    ensures forall other :: Within(seeds, other) && Closed(dir, db, rel, other) ==> Within(sel, other)
    ensures forall other :: IsClosure(dir, db, rel, seeds, other) ==> Within(sel, other) && Within(other, sel)
  {
    hide Step, Has, Reachable;
    forall f | Has(seeds, f) ensures Has(sel, f) {
      ReachesSeeds(dir, db, rel, seeds, f);
    }
    forall f, g | Has(sel, f) && Step(dir, db, rel, f, g) ensures Has(sel, g) {
      ReachesOn(dir, db, rel, seeds, f, g);
    }
    forall other, f | Within(seeds, other) && Closed(dir, db, rel, other) && Has(sel, f) ensures Has(other, f) {
      ClosedHoldsReachable(dir, db, rel, seeds, other, f);
    }
  }

  // --- the finite universe -----------------------------------------------------------------------------------------

  /** Every tuple that following a foreign key can add. */
  ghost function Universe(db: Database, rel: Relations): set<Fact> {
    (set k: nat, row | k < |rel.fks| && row in RowsOf(db, rel.fks[k].child)
       :: Fact(rel.fks[k].parent, rel.fks[k].ref, Project(row, rel.fks[k].columns)))
    + (set k: nat, row | k < |rel.fks| && row in RowsOf(db, rel.fks[k].child) && HasKey(rel, rel.fks[k].child)
         :: Fact(rel.fks[k].child, rel.pk[rel.fks[k].child], Project(row, rel.pk[rel.fks[k].child])))
  }

  lemma StepsStayInside(dir: Direction, db: Database, rel: Relations, f: Fact, g: Fact)
    requires Step(dir, db, rel, f, g)
    ensures g in Universe(db, rel)
  {
    hide Project, NotNull;
    var k: nat :| k < |rel.fks| && Leads(dir, db, rel, k, f, g);
    var l := LookupOf(dir, rel, rel.fks[k], f.table, f.columns).value;
    var row :| Finds(db, l, f.values, row, g);
  }

  ghost function Missing(all: set<Fact>, sel: Selection): set<Fact> {
    set f | f in all && !Has(sel, f)
  }

  // --- the worklist ------------------------------------------------------------------------------------------------

  /** An entry of the worklist: the tuples of one table and one column set that were new when it was added. */
  datatype Item = Item(table: Table, columns: Columns, values: set<Tuple>)

  predicate In(it: Item, f: Fact) {
    f.table == it.table && f.columns == it.columns && f.values in it.values
  }

  ghost predicate Listed(items: seq<Item>, f: Fact) {
    exists i :: 0 <= i < |items| && In(items[i], f)
  }

  lemma ListedConcat(a: seq<Item>, b: seq<Item>)
    ensures forall f :: Listed(a + b, f) <==> Listed(a, f) || Listed(b, f)
  {
    hide In;
    forall f ensures Listed(a + b, f) <==> Listed(a, f) || Listed(b, f) {
      if Listed(a, f) {
        var i :| 0 <= i < |a| && In(a[i], f);
        assert In((a + b)[i], f);
      }
      if Listed(b, f) {
        var i :| 0 <= i < |b| && In(b[i], f);
        assert In((a + b)[|a| + i], f);
      }
    }
  }

  lemma ListedOne(it: Item)
    ensures forall f :: Listed([it], f) <==> In(it, f)
  {
    hide In;
    forall f | In(it, f) ensures Listed([it], f) {
      assert In([it][0], f);
    }
  }

  /** What adding to a selection does: the listed tuples, all new, and nothing else. */
  ghost predicate Adds(before: Selection, after: Selection, items: seq<Item>) {
    && (forall f :: Has(after, f) <==> Has(before, f) || Listed(items, f))
    && (forall f :: Listed(items, f) ==> !Has(before, f))
    && (forall i :: 0 <= i < |items| ==> items[i].values != {})
  }

  lemma AddsMore(a: Selection, b: Selection, c: Selection, items: seq<Item>, more: seq<Item>)
    requires Adds(a, b, items) && Adds(b, c, more)
    ensures Adds(a, c, items + more)
  {
    hide Has, Listed;
    ListedConcat(items, more);
  }

  lemma AddsNothing(sel: Selection)
    ensures Adds(sel, sel, [])
  {
  }

  /** The elements of a set in some order, as `sorted` gives them. */
  method InSomeOrder(values: set<Tuple>) returns (r: seq<Tuple>)
    ensures forall v :: v in r <==> v in values
  {
    r := [];
    var left := values;
    while left != {}
      invariant left <= values && forall v :: v in r <==> v in values && v !in left
      decreases left
    {
      var v :| v in left;
      r := r + [v];
      left := left - {v};
    }
  }

  const CHUNK := 500

  class Picker {
    var selection: Selection

    constructor ()
      ensures selection == map[]
    {
      selection := map[];
    }

    /** `Subset.add`: the tuples without a null that were not selected yet. */
    method Add(table: Table, cols: Columns, values: seq<Tuple>) returns (added: set<Tuple>)
      modifies this
      ensures forall v :: v in added <==> v in values && NotNull(v) && !Has(old(selection), Fact(table, cols, v))
      ensures forall f :: Has(selection, f) <==> Has(old(selection), f) || In(Item(table, cols, added), f)
    {
      hide NotNull;
      if table !in selection {
        selection := selection[table := map[]];
      }
      if cols !in selection[table] {
        selection := selection[table := selection[table][cols := {}]];
      }
      var bucket := selection[table][cols];
      added := (set v | v in values && NotNull(v)) - bucket;
      selection := selection[table := selection[table][cols := bucket + added]];
    }

    /** The query of one foreign key for one worklist entry, in chunks: the tuples it adds. */
    method Follow(db: Database, l: Lookup, values: set<Tuple>) returns (more: seq<Item>)
      modifies this
      ensures Adds(old(selection), selection, more)
      ensures forall v, row, g :: v in values && Finds(db, l, v, row, g) ==> Has(selection, g)
      ensures forall g :: Listed(more, g) ==> exists v, row :: v in values && Finds(db, l, v, row, g)
    {
      hide Has, Listed, NotNull, Project, In;
      more := [];
      var ordered := InSomeOrder(values);
      var i := 0;
      AddsNothing(selection);
      assert forall g :: !Listed([], g) by { NothingListed(); }
      while i < |ordered|
        invariant 0 <= i <= |ordered|
        invariant Adds(old(selection), selection, more)
        invariant forall v, row, g :: v in ordered[..i] && Finds(db, l, v, row, g) ==> Has(selection, g)
        invariant forall g :: Listed(more, g) ==> exists v, row :: v in values && Finds(db, l, v, row, g)
      {
        var end := if i + CHUNK <= |ordered| then i + CHUNK else |ordered|;
        more := FollowChunk(db, l, ordered[i..end], old(selection), values, more);
        assert ordered[..end] == ordered[..i] + ordered[i..end];
        i := end;
      }
      assert ordered[..i] == ordered;
    }

    method FollowChunk(db: Database, l: Lookup, chunk: seq<Tuple>, ghost start: Selection, ghost values: set<Tuple>,
                       before: seq<Item>)
      returns (more: seq<Item>)
      requires Adds(start, selection, before) && forall v :: v in chunk ==> v in values
      requires forall g :: Listed(before, g) ==> exists v, row :: v in values && Finds(db, l, v, row, g)
      modifies this
      ensures Adds(start, selection, more) && Within(old(selection), selection)
      ensures forall v, row, g :: v in chunk && Finds(db, l, v, row, g) ==> Has(selection, g)
      ensures forall g :: Listed(more, g) ==> exists v, row :: v in values && Finds(db, l, v, row, g)
    {
      hide Has, Listed, NotNull, Project;
      var found := Query(RowsOf(db, l.table), l.on, chunk, l.out);
      var added := Add(l.target, l.key, found);
      more := before;
      var it := Item(l.target, l.key, added);
      FoundFacts(db, l, chunk, found, old(selection), selection, it);
      if added != {} {
        more := more + [it];
        ListedOne(it);
        ListedConcat(before, [it]);
        assert Adds(old(selection), selection, [it]);
        AddsMore(start, old(selection), selection, before, [it]);
      } else {
        assert forall f :: Has(selection, f) <==> Has(old(selection), f);
        assert Adds(start, selection, before);
      }
    }

    /** One entry of the worklist: every foreign key of its table. */
    method Expand(dir: Direction, db: Database, rel: Relations, it: Item) returns (more: seq<Item>)
      modifies this
      ensures Adds(old(selection), selection, more)
      ensures forall f :: In(it, f) ==> Settled(dir, db, rel, selection, f)
      ensures forall g :: Listed(more, g) ==> exists f :: In(it, f) && Step(dir, db, rel, f, g)
    {
      hide Has, Listed, Step, Leads, Finds, LookupOf;
      more := [];
      AddsNothing(selection);
      assert forall g :: !Listed([], g) by { NothingListed(); }
      for k := 0 to |rel.fks|
        invariant Adds(old(selection), selection, more)
        invariant forall j: nat, f, g :: j < k && In(it, f) && Leads(dir, db, rel, j, f, g) ==> Has(selection, g)
        invariant forall g :: Listed(more, g) ==> exists f :: In(it, f) && Step(dir, db, rel, f, g)
      {
        var l := LookupOf(dir, rel, rel.fks[k], it.table, it.columns);
        ghost var before, had := selection, more;
        if l.Some? {
          var fresher := Follow(db, l.value, it.values);
          AddsMore(old(selection), before, selection, more, fresher);
          ListedConcat(more, fresher);
          more := more + fresher;
          FollowedSteps(dir, db, rel, k, it, l.value, fresher);
        }
        FollowedLeads(dir, db, rel, k, it, selection);
      }
      forall f, g | In(it, f) && Step(dir, db, rel, f, g) ensures Has(selection, g) {
        StepLeads(dir, db, rel, f, g);
      }
    }

    /** The worklist to its end, taken from the back (`frontier.pop()`) or in order (`frontier[i]`). */
    method Close(dir: Direction, db: Database, rel: Relations, items: seq<Item>) returns (all: seq<Item>)
      requires forall f :: Has(selection, f) <==> Listed(items, f)
      modifies this
      ensures IsClosure(dir, db, rel, old(selection), selection)
      ensures forall f :: Has(selection, f) <==> Listed(all, f)
    {
      hide Has, Listed, Step, IsClosure, Reachable, Universe;
      ghost var seeds, universe := selection, Universe(db, rel);
      var todo := items;
      all := items;
      ClosingStarts(dir, db, rel, seeds, items);
      while todo != []
        invariant Closing(dir, db, rel, seeds, selection, todo)
        invariant forall f :: Has(selection, f) <==> Listed(all, f)
        invariant forall f :: Listed(todo, f) ==> Has(selection, f)
        decreases |Missing(universe, selection)|, |todo|
      {
        var it: Item, rest: seq<Item>;
        match dir {
          case Up => it, rest := todo[|todo| - 1], todo[..|todo| - 1];
          case Down => it, rest := todo[0], todo[1..];
        }
        ghost var before := selection;
        var more := Expand(dir, db, rel, it);
        Taken(todo, it, rest);
        ClosingGoesOn(dir, db, rel, seeds, before, selection, todo, it, rest, more);
        Shrinks(dir, db, rel, it, before, selection, more);
        ListedConcat(all, more);
        ListedConcat(rest, more);
        todo := rest + more;
        all := all + more;
      }
      ClosingEnds(dir, db, rel, seeds, selection);
    }
  }

  // --- the plan ----------------------------------------------------------------------------------------------------

  /** The tables no foreign key of another table points at. */
  function Roots(rel: Relations, tables: seq<Table>): (r: seq<Table>)
    ensures forall t :: t in r <==> t in tables && forall k :: 0 <= k < |rel.fks| && rel.fks[k].child != t ==>
        rel.fks[k].parent != t
  {
    if tables == [] then []
    else
      var t, rest := tables[0], Roots(rel, tables[1..]);
      if forall k :: 0 <= k < |rel.fks| && rel.fks[k].child != t ==> rel.fks[k].parent != t then [t] + rest else rest
  }

  function Ceil(x: real): int {
    -((-x).Floor)
  }

  /** How many rows of a root table are sampled. */
  function SampleSize(total: nat, ratio: real, maxRows: int): int {
    if total == 0 then 0
    else
      var n := Ceil(total as real * ratio);
      if maxRows < n then maxRows else n
  }

  /** The columns a root's rows are selected by: its primary key, or else the whole row. */
  function RootKey(db: Database, rel: Relations, t: Table): Columns {
    if HasKey(rel, t) then rel.pk[t] else if t in db.columns then db.columns[t] else []
  }

  /** What to sample, and the rows `order by random() limit N` gives. */
  datatype Request = Request(ratio: real, maxRows: int, withChildren: bool, sample: (Table, int) -> seq<Row>)

  /** One sampled row of the root table, as it is selected. */
  ghost predicate Sampled(db: Database, rel: Relations, q: Request, t: Table, f: Fact) {
    var n := SampleSize(|RowsOf(db, t)|, q.ratio, q.maxRows);
    && n != 0 && f.table == t && f.columns == RootKey(db, rel, t) && NotNull(f.values)
    && exists row :: row in q.sample(t, n) && f.values == Project(row, f.columns)
  }

  ghost predicate AreSeeds(db: Database, rel: Relations, q: Request, roots: seq<Table>, seeds: Selection) {
    forall f :: Has(seeds, f) <==> exists i :: 0 <= i < |roots| && Sampled(db, rel, q, roots[i], f)
  }

  /** The selection `plan` arrives at: the sampled rows, their children if asked for, and then all their parents. */
  ghost predicate IsPlan(db: Database, rel: Relations, q: Request, roots: seq<Table>, sel: Selection) {
    exists seeds, middle ::
      && AreSeeds(db, rel, q, roots, seeds)
      && (if q.withChildren then IsClosure(Down, db, rel, seeds, middle) else middle == seeds)
      && IsClosure(Up, db, rel, middle, sel)
  }

  function Projected(rows: seq<Row>, cols: Columns): (r: seq<Tuple>)
    ensures forall v :: v in r <==> exists row :: row in rows && v == Project(row, cols)
  {
    if rows == [] then [] else
      assert forall row :: row in rows <==> row == rows[0] || row in rows[1..];
      [Project(rows[0], cols)] + Projected(rows[1..], cols)
  }

  /** Rows of the table are sampled as a whole, which is noted. */
  predicate IsKeyless(db: Database, rel: Relations, q: Request, t: Table) {
    !(t in rel.pk && rel.pk[t] != []) && SampleSize(|RowsOf(db, t)|, q.ratio, q.maxRows) != 0
  }

  /** `plan` */
  method Plan(db: Database, rel: Relations, q: Request, given: seq<Table>) returns (sub: Picker, notes: seq<Table>)
    ensures fresh(sub) && IsPlan(db, rel, q, if given != [] then given else Roots(rel, rel.tables), sub.selection)
    ensures forall t :: t in notes <==> IsKeyless(db, rel, q, t) && t in if given != [] then given
                                                                         else Roots(rel, rel.tables)
  {
    hide IsClosure, Sampled;
    var roots := if given != [] then given else Roots(rel, rel.tables);
    sub := new Picker();
    notes := [];
    var frontier: seq<Item> := [];
    assert forall f :: !Listed(frontier, f) by { NothingListed(); }
    for i := 0 to |roots|
      invariant forall f :: Has(sub.selection, f) <==> Listed(frontier, f)
      invariant AreSeeds(db, rel, q, roots[..i], sub.selection)
      invariant forall t :: t in notes <==> t in roots[..i] && IsKeyless(db, rel, q, t)
    {
      ghost var before := sub.selection;
      ghost var it := Item(roots[i], [], {});
      var n := SampleSize(|RowsOf(db, roots[i])|, q.ratio, q.maxRows);
      if n != 0 {
        if !HasKey(rel, roots[i]) {
          notes := notes + [roots[i]];
        }
        var key := RootKey(db, rel, roots[i]);
        var rows := q.sample(roots[i], n);
        var added := sub.Add(roots[i], key, Projected(rows, key));
        it := Item(roots[i], key, added);
        ListedOne(Item(roots[i], key, added));
        ListedConcat(frontier, [Item(roots[i], key, added)]);
        frontier := frontier + [Item(roots[i], key, added)];
        SampledRoot(db, rel, q, roots[i], rows, before, sub.selection, added);
      } else {
        NotSampled(db, rel, q, roots[i]);
      }
      MoreSeeds(db, rel, q, roots[..i], roots[i], before, sub.selection);
      assert roots[..i] + [roots[i]] == roots[..i + 1];
    }
    assert roots[..|roots|] == roots;
    ghost var seeds := sub.selection;
    if q.withChildren {
      frontier := sub.Close(Down, db, rel, frontier);
    }
    ghost var middle := sub.selection;
    frontier := sub.Close(Up, db, rel, frontier);
  }

  lemma SampledRoot(db: Database, rel: Relations, q: Request, t: Table, rows: seq<Row>, before: Selection,
                    after: Selection, added: set<Tuple>)
    requires var n := SampleSize(|RowsOf(db, t)|, q.ratio, q.maxRows); n != 0 && rows == q.sample(t, n)
    requires var key := RootKey(db, rel, t);
             && (forall v :: v in added <==> v in Projected(rows, key) && NotNull(v) && !Has(before, Fact(t, key, v)))
             && (forall f :: Has(after, f) <==> Has(before, f) || In(Item(t, key, added), f))
    ensures forall f :: Has(after, f) <==> Has(before, f) || Sampled(db, rel, q, t, f)
  {
    hide Has, NotNull, Project, RootKey, SampleSize, Projected;
    var key := RootKey(db, rel, t);
    forall f ensures Has(after, f) <==> Has(before, f) || Sampled(db, rel, q, t, f) {
      assert Sampled(db, rel, q, t, f) <==>
             f.table == t && f.columns == key && NotNull(f.values) && f.values in Projected(rows, key);
      assert f == Fact(f.table, f.columns, f.values);
    }
  }

  lemma NotSampled(db: Database, rel: Relations, q: Request, t: Table)
    requires SampleSize(|RowsOf(db, t)|, q.ratio, q.maxRows) == 0
    ensures forall f :: !Sampled(db, rel, q, t, f)
  {
  }

  lemma MoreSeeds(db: Database, rel: Relations, q: Request, roots: seq<Table>, t: Table, before: Selection,
                  after: Selection)
    requires AreSeeds(db, rel, q, roots, before)
    requires forall f :: Has(after, f) <==> Has(before, f) || Sampled(db, rel, q, t, f)
    ensures AreSeeds(db, rel, q, roots + [t], after)
  {
    hide Has, Sampled;
    var all := roots + [t];
    forall f ensures Has(after, f) <==> exists i :: 0 <= i < |all| && Sampled(db, rel, q, all[i], f) {
      if Sampled(db, rel, q, t, f) {
        assert Sampled(db, rel, q, all[|roots|], f);
      }
      if Has(before, f) {
        var i :| 0 <= i < |roots| && Sampled(db, rel, q, roots[i], f);
        assert Sampled(db, rel, q, all[i], f);
      }
    }
  }

  // --- what the selection means for rows ---------------------------------------------------------------------------

  /** The row is in the subset. */
  ghost predicate Picked(sel: Selection, t: Table, row: Row) {
    exists cols :: Has(sel, Fact(t, cols, Project(row, cols)))
  }

  /** Whatever was sampled, the subset is referentially complete: the parents of every row in it are in it. */
  lemma PlanIsReferentiallyComplete(db: Database, rel: Relations, q: Request, roots: seq<Table>, sel: Selection,
                                    fk: ForeignKey, row: Row, parent: Row)
    requires IsPlan(db, rel, q, roots, sel) && fk in rel.fks
    requires row in RowsOf(db, fk.child) && Picked(sel, fk.child, row)
    requires NotNull(Project(row, fk.columns)) && Project(parent, fk.ref) == Project(row, fk.columns)
    ensures Picked(sel, fk.parent, parent)
  {
    hide Has, NotNull, IsClosure, AreSeeds, Closed, Within, Step;
    var seeds, middle :|
      && AreSeeds(db, rel, q, roots, seeds)
      && (if q.withChildren then IsClosure(Down, db, rel, seeds, middle) else middle == seeds)
      && IsClosure(Up, db, rel, middle, sel);
    ClosureIsLeast(Up, db, rel, middle, sel);
    ClosedPicksParents(db, rel, sel, fk, row, parent);
  }

  lemma ClosedPicksParents(db: Database, rel: Relations, sel: Selection, fk: ForeignKey, row: Row, parent: Row)
    requires Closed(Up, db, rel, sel) && fk in rel.fks
    requires row in RowsOf(db, fk.child) && Picked(sel, fk.child, row)
    requires NotNull(Project(row, fk.columns)) && Project(parent, fk.ref) == Project(row, fk.columns)
    ensures Picked(sel, fk.parent, parent)
  {
    hide Has, NotNull, Project;
    var cols :| Has(sel, Fact(fk.child, cols, Project(row, cols)));
    var f := Fact(fk.child, cols, Project(row, cols));
    var g := Fact(fk.parent, fk.ref, Project(parent, fk.ref));
    var k :| 0 <= k < |rel.fks| && rel.fks[k] == fk;
    var l := Lookup(fk.child, cols, fk.columns, fk.parent, fk.ref);
    assert Finds(db, l, f.values, row, g);
    assert Leads(Up, db, rel, k, f, g);
    assert Step(Up, db, rel, f, g);
    assert Settled(Up, db, rel, sel, f);
    assert Has(sel, g);
  }

  /** No foreign key leads to the table: nobody refers to it, and without a primary key its rows are no children
      either. */
  predicate IsCutOff(rel: Relations, t: Table) {
    !HasKey(rel, t) && forall k :: 0 <= k < |rel.fks| ==> rel.fks[k].parent != t
  }

  lemma CutOffHoldsSeeds(dir: Direction, db: Database, rel: Relations, seeds: Selection, f: Fact)
    requires IsCutOff(rel, f.table) && Reachable(dir, db, rel, seeds, f)
    ensures Has(seeds, f)
  {
    hide Has, Project, NotNull;
    var path :| path != [] && Has(seeds, path[0]) && path[|path| - 1] == f && IsPath(dir, db, rel, path);
    if |path| > 1 {
      assert Step(dir, db, rel, path[|path| - 2], path[|path| - 1]);
      StepLeads(dir, db, rel, path[|path| - 2], f);
    }
  }

  /** A root without a primary key that nobody refers to is sampled by whole rows: only rows of it without a null are
      ever in the subset. */
  lemma KeylessRootsHaveWholeRows(db: Database, rel: Relations, q: Request, roots: seq<Table>, sel: Selection,
                                  t: Table, row: Row)
    requires IsPlan(db, rel, q, roots, sel) && IsCutOff(rel, t) && Picked(sel, t, row)
    ensures t in roots && NotNull(Project(row, RootKey(db, rel, t)))
  {
    hide Has, Project, NotNull, Reachable, RootKey;
    var cols :| Has(sel, Fact(t, cols, Project(row, cols)));
    var f := Fact(t, cols, Project(row, cols));
    var seeds, middle :|
      && AreSeeds(db, rel, q, roots, seeds)
      && (if q.withChildren then IsClosure(Down, db, rel, seeds, middle) else middle == seeds)
      && IsClosure(Up, db, rel, middle, sel);
    CutOffHoldsSeeds(Up, db, rel, middle, f);
    if q.withChildren {
      CutOffHoldsSeeds(Down, db, rel, seeds, f);
    }
    var i :| 0 <= i < |roots| && Sampled(db, rel, q, roots[i], f);
  }

  // --- lemmas of the worklist --------------------------------------------------------------------------------------

  lemma NothingListed()
    ensures forall g :: !Listed([], g)
  {
  }

  lemma FoundFacts(db: Database, l: Lookup, chunk: seq<Tuple>, found: seq<Tuple>, before: Selection, after: Selection,
                   it: Item)
    requires forall row :: row in RowsOf(db, l.table) && Project(row, l.on) in chunk ==> Project(row, l.out) in found
    requires forall v :: v in found ==> exists row ::
        row in RowsOf(db, l.table) && Project(row, l.on) in chunk && v == Project(row, l.out)
    requires it == Item(l.target, l.key, it.values)
    requires forall v :: v in it.values <==> v in found && NotNull(v) && !Has(before, Fact(l.target, l.key, v))
    requires forall f :: Has(after, f) <==> Has(before, f) || In(it, f)
    ensures forall v, row, g :: v in chunk && Finds(db, l, v, row, g) ==> Has(after, g)
    ensures forall g :: In(it, g) ==> !Has(before, g) && exists v, row :: v in chunk && Finds(db, l, v, row, g)
  {
    hide Has, NotNull, Project;
    forall g | In(it, g) ensures exists v, row :: v in chunk && Finds(db, l, v, row, g) {
      var row :| row in RowsOf(db, l.table) && Project(row, l.on) in chunk && g.values == Project(row, l.out);
      assert Finds(db, l, Project(row, l.on), row, g);
    }
  }

  lemma FollowedSteps(dir: Direction, db: Database, rel: Relations, k: nat, it: Item, l: Lookup, more: seq<Item>)
    requires k < |rel.fks| && LookupOf(dir, rel, rel.fks[k], it.table, it.columns) == Some(l)
    requires forall g :: Listed(more, g) ==> exists v, row :: v in it.values && Finds(db, l, v, row, g)
    ensures forall g :: Listed(more, g) ==> exists f :: In(it, f) && Step(dir, db, rel, f, g)
  {
    hide Listed, Finds, LookupOf;
    forall g | Listed(more, g) ensures exists f :: In(it, f) && Step(dir, db, rel, f, g) {
      var v, row :| v in it.values && Finds(db, l, v, row, g);
      var f := Fact(it.table, it.columns, v);
      assert Leads(dir, db, rel, k, f, g);
      assert In(it, f) && Step(dir, db, rel, f, g);
    }
  }

  lemma FollowedLeads(dir: Direction, db: Database, rel: Relations, k: nat, it: Item, sel: Selection)
    requires k < |rel.fks|
    requires var l := LookupOf(dir, rel, rel.fks[k], it.table, it.columns);
             l.Some? ==> forall v, row, g :: v in it.values && Finds(db, l.value, v, row, g) ==> Has(sel, g)
    ensures forall f, g :: In(it, f) && Leads(dir, db, rel, k, f, g) ==> Has(sel, g)
  {
    hide Finds, LookupOf, Has;
  }

  lemma StepLeads(dir: Direction, db: Database, rel: Relations, f: Fact, g: Fact)
    requires Step(dir, db, rel, f, g)
    ensures exists k: nat :: k < |rel.fks| && Leads(dir, db, rel, k, f, g)
  {
    hide Leads;
  }

  /** What holds of the selection while the worklist is being worked off. */
  ghost predicate Closing(dir: Direction, db: Database, rel: Relations, seeds: Selection, sel: Selection,
                          todo: seq<Item>) {
    && Within(seeds, sel)
    && (forall f :: Has(sel, f) ==> Reachable(dir, db, rel, seeds, f))
    && (forall f :: Has(sel, f) ==> Listed(todo, f) || Settled(dir, db, rel, sel, f))
  }

  lemma ClosingStarts(dir: Direction, db: Database, rel: Relations, seeds: Selection, items: seq<Item>)
    requires forall f :: Has(seeds, f) <==> Listed(items, f)
    ensures Closing(dir, db, rel, seeds, seeds, items)
  {
    hide Has, Listed, Step, Reachable;
    forall f | Has(seeds, f) ensures Reachable(dir, db, rel, seeds, f) {
      ReachesSeeds(dir, db, rel, seeds, f);
    }
  }

  lemma Taken(todo: seq<Item>, it: Item, rest: seq<Item>)
    requires todo != [] && ((it == todo[|todo| - 1] && rest == todo[..|todo| - 1]) ||
        (it == todo[0] && rest == todo[1..]))
    ensures forall f :: Listed(todo, f) <==> In(it, f) || Listed(rest, f)
  {
    hide In, Listed;
    ListedOne(it);
    if rest == todo[1..] && it == todo[0] {
      ListedConcat([it], rest);
      assert [it] + rest == todo;
    } else {
      ListedConcat(rest, [it]);
      assert rest + [it] == todo;
    }
  }

  lemma ClosingGoesOn(dir: Direction, db: Database, rel: Relations, seeds: Selection, before: Selection,
                      after: Selection,
                      todo: seq<Item>, it: Item, rest: seq<Item>, more: seq<Item>)
    requires Closing(dir, db, rel, seeds, before, todo) && Adds(before, after, more)
    requires forall f :: Listed(todo, f) <==> In(it, f) || Listed(rest, f)
    requires forall f :: Listed(todo, f) ==> Has(before, f)
    requires forall f :: In(it, f) ==> Settled(dir, db, rel, after, f)
    requires forall g :: Listed(more, g) ==> exists f :: In(it, f) && Step(dir, db, rel, f, g)
    ensures Closing(dir, db, rel, seeds, after, rest + more)
  {
    hide Has, Listed, Step, Reachable, In;
    ListedConcat(rest, more);
    forall g | Listed(more, g) ensures Reachable(dir, db, rel, seeds, g) {
      var f :| In(it, f) && Step(dir, db, rel, f, g);
      assert Listed(todo, f);
      ReachesOn(dir, db, rel, seeds, f, g);
    }
    forall f | Has(after, f) ensures Listed(rest + more, f) || Settled(dir, db, rel, after, f) {
      if Has(before, f) && !In(it, f) && !Listed(rest, f) {
        assert Settled(dir, db, rel, before, f);
      }
    }
  }

  lemma ClosingEnds(dir: Direction, db: Database, rel: Relations, seeds: Selection, sel: Selection)
    requires Closing(dir, db, rel, seeds, sel, [])
    ensures IsClosure(dir, db, rel, seeds, sel)
  {
    hide Has, Step, Reachable;
    NothingListed();
    assert Closed(dir, db, rel, sel);
    forall f | Reachable(dir, db, rel, seeds, f) ensures Has(sel, f) {
      ClosedHoldsReachable(dir, db, rel, seeds, sel, f);
    }
  }

  /** Every entry that is added takes a tuple out of the finitely many that can still be added. */
  lemma Shrinks(dir: Direction, db: Database, rel: Relations, it: Item, before: Selection, after: Selection,
                more: seq<Item>)
    requires Adds(before, after, more)
    requires forall g :: Listed(more, g) ==> exists f :: In(it, f) && Step(dir, db, rel, f, g)
    ensures Missing(Universe(db, rel), after) <= Missing(Universe(db, rel), before)
    ensures |Missing(Universe(db, rel), after)| <= |Missing(Universe(db, rel), before)|
    ensures more != [] ==> |Missing(Universe(db, rel), after)| < |Missing(Universe(db, rel), before)|
  {
    hide Has, Step, Universe, In, Listed;
    var a, b := Missing(Universe(db, rel), after), Missing(Universe(db, rel), before);
    assert a <= b;
    Smaller(a, b);
    if more != [] {
      var v :| v in more[0].values;
      var g := Fact(more[0].table, more[0].columns, v);
      FirstIsListed(more, g);
      var f :| In(it, f) && Step(dir, db, rel, f, g);
      StepsStayInside(dir, db, rel, f, g);
      assert g in b && g !in a;
    }
  }

  lemma FirstIsListed(items: seq<Item>, f: Fact)
    requires items != [] && In(items[0], f)
    ensures Listed(items, f)
  {
  }

  lemma Smaller<T>(a: set<T>, b: set<T>)
    requires a <= b
    ensures |a| <= |b| && (a != b ==> |a| < |b|)
  {
    assert b == a + (b - a);
    assert |b| == |a| + |b - a|;
  }
}
