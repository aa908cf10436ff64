/**
 * When the planner itself is right: not on leaf valuations but on schemas, databases and rows.
 */
module QueryLeak {
  import opened Wrappers
  import opened QueryAst
  import opened QuerySql
  import opened QueryPlan
  import opened QueryFind

  /** The same schema but for what its FilterFns answer. */
  ghost predicate SameButFilters<T>(schema: Schema<T>, other: Schema<T>) {
    && other.Keys == schema.Keys
    && forall f :: f in schema ==>
         && other[f].filterFn.Some? == schema[f].filterFn.Some?
         && other[f] == schema[f].(filterFn := other[f].filterFn)
  }

  /** The leaf's condition, when the database evaluates it. */
  function PushedCond<T>(b: Backend, schema: Schema<T>, leaf: Node): Option<DbCond> {
    if leaf.Comparison? && KindOf(b, schema, leaf) == Pushed then LeafCond(b, schema, leaf) else None
  }

  /** Pushed leaves have conditions of their own, which are no connectives and can be read back. */
  ghost predicate Separable<T>(b: Backend, schema: Schema<T>, n: Node) {
    && Readable(b, schema, n)
    && (forall leaf :: leaf in Leaves(n) && PushedCond(b, schema, leaf).Some? ==>
          SplitTop(PushedCond(b, schema, leaf).value.sql) == Atom)
    && (forall x, y :: x in Leaves(n) && y in Leaves(n) && PushedCond(b, schema, x).Some? ==>
          (PushedCond(b, schema, x) == PushedCond(b, schema, y) ==> x == y))
  }

  /** Column conditions are no connectives. */
  lemma ColumnIsAtom(b: Backend, col: string, op: Op, val: string, typ: FieldType)
    requires Plain(b.quoteIdent(col)) && ColumnCond(b, col, op, val, typ).Ok?
    ensures SplitTop(ColumnCond(b, col, op, val, typ).value.sql) == Atom
  {
    var q, sql := b.quoteIdent(col), ColumnCond(b, col, op, val, typ).value.sql;
    assert sql != "" && sql[0] == if q == "" then ' ' else q[0];
  }

  lemma {:induction false} LeavesAreComparisons(n: Node)
    ensures forall leaf :: leaf in Leaves(n) ==> leaf.Comparison?
  {
    if n.Logical? {
      LeavesAreComparisons(n.left);
      LeavesAreComparisons(n.right);
    }
  }

  lemma FiltersKeepLeaf<T>(b: Backend, schema: Schema<T>, other: Schema<T>, leaf: Node)
    requires SameButFilters(schema, other) && leaf.Comparison?
    ensures KindOf(b, other, leaf) == KindOf(b, schema, leaf) && LeafCond(b, other, leaf) == LeafCond(b, schema, leaf)
  {
  }

  lemma {:induction false} SameAllKind(k: Node -> Kind, l: Node -> Kind, kind: Kind, n: Node)
    requires forall leaf :: leaf in Leaves(n) ==> k(leaf) == l(leaf)
    ensures AllKind(k, kind, n) == AllKind(l, kind, n)
  {
    if n.Logical? {
      SameAllKind(k, l, kind, n.left);
      SameAllKind(k, l, kind, n.right);
    } else {
      assert n in Leaves(n);
    }
  }

  lemma {:induction false} OnlyKindsMatter(k: Node -> Kind, l: Node -> Kind, v: Node -> Truth, n: Node)
    requires forall leaf :: leaf in Leaves(n) ==> k(leaf) == l(leaf)
    ensures PassesDb(k, v, n) == PassesDb(l, v, n) && PassesMemory(k, v, n) == PassesMemory(l, v, n)
    ensures SomeMemory(k, n) == SomeMemory(l, n) && Exact(k, n) == Exact(l, n)
  {
    SameAllKind(k, l, Pushed, n);
    SameAllKind(k, l, Memory, n);
    if n.Logical? {
      OnlyKindsMatter(k, l, v, n.left);
      OnlyKindsMatter(k, l, v, n.right);
    } else {
      assert n in Leaves(n);
    }
  }

  lemma FiltersKeepPlan<T>(b: Backend, schema: Schema<T>, other: Schema<T>, n: Node, v: Node -> Truth)
    requires SameButFilters(schema, other)
    ensures Exact(Kinds(b, other), n) == Exact(Kinds(b, schema), n)
    ensures Passes(Kinds(b, other), v, n) == Passes(Kinds(b, schema), v, n)
    ensures Readable(b, schema, n) ==> Readable(b, other, n)
  {
    LeavesAreComparisons(n);
    forall leaf | leaf in Leaves(n)
      ensures KindOf(b, other, leaf) == KindOf(b, schema, leaf)
      ensures LeafCond(b, other, leaf) == LeafCond(b, schema, leaf)
    {
      FiltersKeepLeaf(b, schema, other, leaf);
    }
    OnlyKindsMatter(Kinds(b, other), Kinds(b, schema), v, n);
  }

  // ─── A schema and a database for a valuation ────────────────────────────────

  ghost function Filters<T(!new)>(schema: Schema<T>, v: Node -> Truth): (other: Schema<T>)
    ensures SameButFilters(schema, other)
  {
    map f | f in schema ::
      if schema[f].filterFn.None? then schema[f]
      else schema[f].(filterFn := Some((row: T, op, val) => v(Comparison(f, op, val)) == True3))
  }

  ghost predicate CondHolds<T>(b: Backend, schema: Schema<T>, n: Node, v: Node -> Truth, c: DbCond) {
    exists leaf :: leaf in Leaves(n) && PushedCond(b, schema, leaf) == Some(c) && v(leaf) == True3
  }

  ghost function Verdicts<T(!new)>(b: Backend, schema: Schema<T>, n: Node, v: Node -> Truth): World<T> {
    World((row: T, c) => if CondHolds(b, schema, n, v, c) then True3 else False3, (row: T, leaf) => v(leaf))
  }

  /** On the leaves of the tree, that schema and that database are the valuation. */
  lemma LeafIsValued<T(!new)>(b: Backend, schema: Schema<T>, n: Node, v: Node -> Truth, row: T, leaf: Node)
    requires Separable(b, schema, n) && leaf in Leaves(n) && v(leaf) != Unknown3
    ensures LeafTruth(b, Filters(schema, v), Verdicts(b, schema, n, v), row, leaf) == v(leaf)
  {
    var other, w := Filters(schema, v), Verdicts(b, schema, n, v);
    LeavesAreComparisons(n);
    FiltersKeepLeaf(b, schema, other, leaf);
    match KindOf(b, schema, leaf) {
      case Memory =>
        assert leaf == Comparison(leaf.field, leaf.op, leaf.value);
      case Lost =>
      case Pushed =>
        var c := LeafCond(b, schema, leaf).value;
        assert PushedCond(b, schema, leaf) == Some(c);
        assert CondTruth(w, row, c) == w.atom(row, c);
        assert CondHolds(b, schema, n, v, c) <==> v(leaf) == True3;
    }
  }

  // ─── Main result ────────────────────────────────────────────────────────────

  ghost predicate RightFor<T(!new)>(b: Backend, schema: Schema<T>, db: Database<T>, n: Node, o: QueryOption, row: T) {
    Survives(schema, db, o, row) <==> Meaning(b, schema, db.world, row, n) == True3
  }

  lemma LeakingRow<T(!new)>(b: Backend, schema: Schema<T>, n: Node, row: T)
    returns (other: Schema<T>, db: Database<T>, o: QueryOption)
    requires DistinctLeaves(n) && Separable(b, schema, n) && !Exact(Kinds(b, schema), n)
    ensures SameButFilters(schema, other) && PlanOf(b, other, Query(Some(n), []), o)
    ensures Survives(other, db, o, row) && Meaning(b, other, db.world, row, n) == False3
  {
    var v := InexactLeaks(Kinds(b, schema), n);
    other := Filters(schema, v);
    db := Database(Verdicts(b, schema, n, v), (dirs, rows) => rows);
    var q := Query(Some(n), []);
    o := QueryOption(q, CollectConds(b, other, n), [], HasMemFilter(other, n), false);
    var u := Valuation(b, other, db.world, row);
    forall leaf | leaf in Leaves(n)
      ensures u(leaf) == v(leaf)
    {
      LeafIsValued(b, schema, n, v, row, leaf);
    }
    OnlyLeavesMatter(Kinds(b, other), n, u, v);
    FiltersKeepPlan(b, schema, other, n, v);
    SurvivesPasses(b, other, db, q, o, row);
  }

  /**
   * A tree of distinct leaves, whose pushed ones have conditions of their own, is planned rightly
   * for a row whatever its FilterFns answer and whatever the database says, iff every OR reached
   * through ANDs is one-sided and no leaf is lost. Otherwise some FilterFns and some database
   * keep a row for which the tree is FALSE.
   */
  lemma PlannedRightIff<T(!new)>(b: Backend, schema: Schema<T>, n: Node, row: T)
    requires DistinctLeaves(n) && Separable(b, schema, n)
    ensures Exact(Kinds(b, schema), n) <==>
      forall other: Schema<T>, db: Database<T>, o ::
        SameButFilters(schema, other) && PlanOf(b, other, Query(Some(n), []), o) ==> RightFor(b, other, db, n, o, row)
  {
    if Exact(Kinds(b, schema), n) {
      forall other: Schema<T>, db: Database<T>, o |
        SameButFilters(schema, other) && PlanOf(b, other, Query(Some(n), []), o)
        ensures RightFor(b, other, db, n, o, row)
      {
        FiltersKeepPlan(b, schema, other, n, Constant(True3));
        PushdownExact(b, other, db, Query(Some(n), []), o, row);
      }
    } else {
      var other, db, o := LeakingRow(b, schema, n, row);
      assert !RightFor(b, other, db, n, o, row);
    }
  }
}
