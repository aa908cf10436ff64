/**
 * Filtered queries end to end: `ToOption`, the in-memory pass, and the order in which
 * `DatabaseDefaultRepository.Find` folds the options of one query.
 */
module QueryFind {
  import opened Wrappers
  import opened Sequences
  import opened QueryAst
  import opened QuerySql
  import opened QueryPlan
  import opened QuerySort

  /** A parsed request: a filter tree, absent for a blank filter, and sort keys. */
  datatype Query = Query(node: Option<Node>, sorts: seq<SortField>)

  datatype QueryError = BadFilter(filterError: FilterError) | BadSort(sortError: SortError)

  /** What `ToOption` captures: the database scope, and what the in-memory pass has to do. */
  datatype QueryOption = QueryOption(
    query: Query, conds: seq<DbCond>, dirs: seq<SortDir>, needFilter: bool, needSort: bool)

  function Conds<T>(b: Backend, schema: Schema<T>, node: Option<Node>): seq<DbCond> {
    if node.None? then [] else CollectConds(b, schema, node.value)
  }

  predicate NeedsFilter<T>(schema: Schema<T>, node: Option<Node>) {
    node.Some? && HasMemFilter(schema, node.value)
  }

  ghost predicate PlanOf<T>(b: Backend, schema: Schema<T>, q: Query, o: QueryOption) {
    && o.query == q
    && o.conds == Conds(b, schema, q.node)
    && o.dirs == (if NeedsMemSort(schema, q.sorts) then [] else OrderBy(schema, q.sorts))
    && o.needFilter == NeedsFilter(schema, q.node)
    && o.needSort == NeedsMemSort(schema, q.sorts)
  }

  ghost predicate ValidQuery<T>(b: Backend, schema: Schema<T>, q: Query) {
    && (q.node.Some? ==> forall leaf :: leaf in Leaves(q.node.value) ==> ValidLeaf(b, schema, leaf))
    && forall i :: 0 <= i < |q.sorts| ==> Sortable(schema, q.sorts[i])
  }

  method ToOption<T>(b: Backend, schema: Schema<T>, q: Query) returns (r: Result<QueryOption, QueryError>)
    ensures r.Ok? <==> ValidQuery(b, schema, q)
    ensures r.Ok? ==> PlanOf(b, schema, q, r.value)
    ensures
      var invalid := q.node.Some? && ValidateNode(b, schema, q.node.value).Err?;
      && (invalid ==> r == Err(BadFilter(ValidateNode(b, schema, q.node.value).error)))
      && (!invalid && r.Err? ==> r.error.BadSort?)
  {
    if q.node.Some? {
      var valid := ValidateNode(b, schema, q.node.value);
      if valid.Err? {
        return Err(BadFilter(valid.error));
      }
    }
    var sortable := ValidateSorts(q.sorts, schema);
    if sortable.Err? {
      return Err(BadSort(sortable.error));
    }
    var dirs := CollectDBSorts(q.sorts, schema);
    var needSort := HasMemSort(q.sorts, schema);
    r := Ok(QueryOption(q, Conds(b, schema, q.node), dirs, NeedsFilter(schema, q.node), needSort));
  }

  function RowFilter<T>(schema: Schema<T>, node: Option<Node>): T -> bool {
    row => node.Some? ==> EvalNode(schema, row, node.value)
  }

  function MemPass<T>(schema: Schema<T>, o: QueryOption, items: seq<T>): seq<T> {
    var filtered := if o.needFilter then Keep(RowFilter(schema, o.query.node), items) else items;
    if o.needSort then StableSort(Less(schema, o.query.sorts), filtered) else filtered
  }

  method InMemoryPass<T>(schema: Schema<T>, o: QueryOption, input: seq<T>) returns (items: seq<T>)
    ensures items == MemPass(schema, o, input)
  {
    items := input;
    if o.needFilter {
      var keep := RowFilter(schema, o.query.node);
      var filtered := [];
      for i := 0 to |items|
        invariant filtered == Keep(keep, items[..i])
      {
        KeepConcat(keep, items[..i], [items[i]]);
        assert items[..i + 1] == items[..i] + [items[i]];
        if keep(items[i]) {
          filtered := filtered + [items[i]];
        }
      }
      assert items[..|items|] == items;
      items := filtered;
    }
    if o.needSort {
      items := StableSort(Less(schema, o.query.sorts), items);
    }
  }

  // ─── Find ───────────────────────────────────────────────────────────────────

  /** The row makes every condition TRUE, as a WHERE clause demands. */
  predicate Accepted<T>(w: World<T>, row: T, conds: seq<DbCond>) {
    forall i :: 0 <= i < |conds| ==> CondTruth(w, row, conds[i]) == True3
  }

  /** The database: its verdicts on rows, and its ORDER BY. */
  datatype Database<!T> = Database(world: World<T>, order: (seq<SortDir>, seq<T>) -> seq<T>) {

    function Accepting(conds: seq<DbCond>): T -> bool {
      row => Accepted(world, row, conds)
    }

    function Select(conds: seq<DbCond>, dirs: seq<SortDir>, table: seq<T>): seq<T> {
      order(dirs, Keep(Accepting(conds), table))
    }
  }

  /** ORDER BY loses and invents no row, and without keys leaves the rows alone. */
  ghost predicate Orders<T(!new)>(db: Database<T>) {
    && (forall rows :: db.order([], rows) == rows)
    && (forall dirs, rows :: multiset(db.order(dirs, rows)) == multiset(rows))
  }

  function AllConds(opts: seq<QueryOption>): seq<DbCond> {
    if opts == [] then [] else opts[0].conds + AllConds(opts[1..])
  }

  function AllDirs(opts: seq<QueryOption>): seq<SortDir> {
    if opts == [] then [] else opts[0].dirs + AllDirs(opts[1..])
  }

  function MemPasses<T>(schema: Schema<T>, opts: seq<QueryOption>, items: seq<T>): seq<T> {
    if opts == [] then items else MemPasses(schema, opts[1..], MemPass(schema, opts[0], items))
  }

  function Found<T>(schema: Schema<T>, db: Database<T>, opts: seq<QueryOption>, table: seq<T>): seq<T> {
    MemPasses(schema, opts, db.Select(AllConds(opts), AllDirs(opts), table))
  }

  /** Options act one after the other: scopes are collected and passes run in option order. */
  lemma {:induction false} OptionsInOrder<T>(schema: Schema<T>, x: seq<QueryOption>, y: seq<QueryOption>, items: seq<T>)
    ensures AllConds(x + y) == AllConds(x) + AllConds(y) && AllDirs(x + y) == AllDirs(x) + AllDirs(y)
    ensures MemPasses(schema, x + y, items) == MemPasses(schema, y, MemPasses(schema, x, items))
  {
    hide MemPass;
    if x == [] {
      assert x + y == y;
    } else {
      assert (x + y)[1..] == x[1..] + y;
      OptionsInOrder(schema, x[1..], y, MemPass(schema, x[0], items));
    }
  }

  /** A single option contributes its own conditions, directions and pass. */
  lemma OneOption<T>(schema: Schema<T>, o: QueryOption, items: seq<T>)
    ensures AllConds([o]) == o.conds && AllDirs([o]) == o.dirs
    ensures MemPasses(schema, [o], items) == MemPass(schema, o, items)
  {
    var rest: seq<QueryOption> := [o][1..];
    assert rest == [] && o.conds + [] == o.conds && o.dirs + [] == o.dirs;
    assert AllConds([o]) == o.conds + AllConds(rest) && AllDirs([o]) == o.dirs + AllDirs(rest);
    assert MemPasses(schema, [o], items) == MemPasses(schema, rest, MemPass(schema, o, items));
  }

  lemma OptionStep<T>(schema: Schema<T>, opts: seq<QueryOption>, i: nat, items: seq<T>)
    requires i < |opts|
    ensures AllConds(opts[i..]) == opts[i].conds + AllConds(opts[i + 1..])
    ensures AllDirs(opts[i..]) == opts[i].dirs + AllDirs(opts[i + 1..])
    ensures MemPasses(schema, opts[i..], items) == MemPasses(schema, opts[i + 1..], MemPass(schema, opts[i], items))
  {
    hide MemPass;
    assert opts[i..][1..] == opts[i + 1..];
  }

  lemma NoOptions<T>(schema: Schema<T>, opts: seq<QueryOption>, items: seq<T>)
    ensures opts[0..] == opts
    ensures AllConds(opts[|opts|..]) == [] && AllDirs(opts[|opts|..]) == []
    ensures MemPasses(schema, opts[|opts|..], items) == items
  {
  }

  /** All database scopes are applied before the query runs, all in-memory passes after it. */
  method Find<T>(schema: Schema<T>, db: Database<T>, opts: seq<QueryOption>, table: seq<T>) returns (items: seq<T>)
    ensures items == Found(schema, db, opts, table)
  {
    hide AllConds, AllDirs, MemPasses, MemPass, Database.Select;
    var conds, dirs := [], [];
    NoOptions<T>(schema, opts, []);
    for i := 0 to |opts|
      invariant conds + AllConds(opts[i..]) == AllConds(opts)
      invariant dirs + AllDirs(opts[i..]) == AllDirs(opts)
    {
      OptionStep<T>(schema, opts, i, []);
      conds := conds + opts[i].conds;
      dirs := dirs + opts[i].dirs;
    }
    assert conds == AllConds(opts) && dirs == AllDirs(opts);
    items := db.Select(conds, dirs, table);
    for i := 0 to |opts|
      invariant MemPasses(schema, opts[i..], items) == Found(schema, db, opts, table)
    {
      OptionStep(schema, opts, i, items);
      items := InMemoryPass(schema, opts[i], items);
    }
    NoOptions(schema, opts, items);
  }

  // ─── One row through one option ─────────────────────────────────────────────

  /** Every condition a leaf turns into can be read back. */
  ghost predicate Readable<T>(b: Backend, schema: Schema<T>, n: Node) {
    forall leaf :: leaf in Leaves(n) && leaf.Comparison? && LeafCond(b, schema, leaf).Some? ==>
      WellFormed(LeafCond(b, schema, leaf).value)
  }

  function Kinds<T>(b: Backend, schema: Schema<T>): Node -> Kind {
    n => KindOf(b, schema, n)
  }

  /** A column whose quoted name has no parenthesis or `?` renders readable conditions. */
  lemma ColumnReadable(b: Backend, col: string, op: Op, val: string, typ: FieldType)
    requires Plain(b.quoteIdent(col)) && Plain(b.likeOperator)
    requires ColumnCond(b, col, op, val, typ).Ok?
    ensures WellFormed(ColumnCond(b, col, op, val, typ).value)
  {
    var q, like := b.quoteIdent(col), " " + b.likeOperator + " ";
    var sign := match op
      case Eq => " = "
      case Ne => " != "
      case Gt => " > "
      case Lt => " < "
      case Gte => " >= "
      case Lte => " <= "
      case _ => like;
    PlainThenHole(q + sign);
    assert ColumnCond(b, col, op, val, typ).value.sql == q + sign + "?";
  }

  lemma PlainThenHole(x: string)
    requires Plain(x)
    ensures Balanced(x + "?") && Holes(x + "?") == 1
  {
    PlainText(x, 0);
    DepthConcat(x, "?", 0);
    HolesConcat(x, "?");
    assert Depth("?", 0) == Some(0) && Holes("?") == 1;
  }

  /**
   * A rendered all-database subtree is well formed, one placeholder per argument, and means
   * the subtree: its text, read back with its arguments from left to right, has its value.
   */
  lemma {:induction false} RenderedSubtree<T>(b: Backend, schema: Schema<T>, w: World<T>, row: T, n: Node)
    requires Readable(b, schema, n)
    ensures NodeCond(b, schema, n).Some? <==> AllKind(Kinds(b, schema), Pushed, n)
    ensures NodeCond(b, schema, n).Some? ==>
      WellFormed(NodeCond(b, schema, n).value) &&
      CondTruth(w, row, NodeCond(b, schema, n).value) == Meaning(b, schema, w, row, n)
  {
    match n {
      case Comparison(_, _, _) =>
        assert n in Leaves(n);
      case Logical(lop, l, r) =>
        RenderedSubtree(b, schema, w, row, l);
        RenderedSubtree(b, schema, w, row, r);
        if NodeCond(b, schema, n).Some? {
          var left, right := NodeCond(b, schema, l).value, NodeCond(b, schema, r).value;
          RenderedWellFormed(lop, left, right);
          RenderedMeans((atom: DbCond) => w.atom(row, atom), lop, left, right);
        }
    }
  }

  lemma AcceptedOne<T>(w: World<T>, row: T, c: DbCond)
    ensures Accepted(w, row, []) && (Accepted(w, row, [c]) <==> CondTruth(w, row, c) == True3)
  {
    assert [c][0] == c;
  }

  lemma AcceptedBoth<T>(w: World<T>, row: T, x: seq<DbCond>, y: seq<DbCond>)
    ensures Accepted(w, row, x + y) <==> Accepted(w, row, x) && Accepted(w, row, y)
  {
    hide CondTruth;
    assert forall i :: 0 <= i < |x| ==> (x + y)[i] == x[i];
    assert forall i :: 0 <= i < |y| ==> (x + y)[|x| + i] == y[i];
  }

  lemma {:induction false} CollectedPasses<T>(b: Backend, schema: Schema<T>, w: World<T>, row: T, n: Node)
    requires Readable(b, schema, n)
    ensures Accepted(w, row, CollectConds(b, schema, n)) <==>
      PassesDb(Kinds(b, schema), Valuation(b, schema, w, row), n)
  {
    hide CondTruth, Accepted, WellFormed;
    match n {
      case Comparison(_, _, _) =>
        assert n in Leaves(n);
        AcceptedOne(w, row, if LeafCond(b, schema, n).Some? then LeafCond(b, schema, n).value else DbCond("", []));
      case Logical(And, l, r) =>
        CollectedPasses(b, schema, w, row, l);
        CollectedPasses(b, schema, w, row, r);
        AcceptedBoth(w, row, CollectConds(b, schema, l), CollectConds(b, schema, r));
      case Logical(Or, _, _) =>
        RenderedSubtree(b, schema, w, row, n);
        AcceptedOne(w, row, if NodeCond(b, schema, n).Some? then NodeCond(b, schema, n).value else DbCond("", []));
    }
  }

  lemma {:induction false} EvaluatedPasses<T>(b: Backend, schema: Schema<T>, w: World<T>, row: T, n: Node)
    ensures EvalNode(schema, row, n) <==> PassesMemory(Kinds(b, schema), Valuation(b, schema, w, row), n)
    ensures HasMemFilter(schema, n) <==> SomeMemory(Kinds(b, schema), n)
  {
    if n.Logical? {
      EvaluatedPasses(b, schema, w, row, n.left);
      EvaluatedPasses(b, schema, w, row, n.right);
    }
  }

  /** The row passes the in-memory filter of the option, if it has one. */
  predicate Retains<T>(schema: Schema<T>, o: QueryOption, row: T) {
    o.needFilter ==> RowFilter(schema, o.query.node)(row)
  }

  function Retaining<T>(schema: Schema<T>, o: QueryOption): T -> bool {
    row => Retains(schema, o, row)
  }

  predicate Survives<T>(schema: Schema<T>, db: Database<T>, o: QueryOption, row: T) {
    Accepted(db.world, row, o.conds) && Retains(schema, o, row)
  }

  /** The row makes the whole filter TRUE. */
  predicate Matches<T>(b: Backend, schema: Schema<T>, w: World<T>, q: Query, row: T) {
    q.node.Some? ==> Meaning(b, schema, w, row, q.node.value) == True3
  }

  function Matching<T>(b: Backend, schema: Schema<T>, w: World<T>, q: Query): T -> bool {
    row => Matches(b, schema, w, q, row)
  }

  ghost predicate ReadableQuery<T>(b: Backend, schema: Schema<T>, q: Query) {
    q.node.Some? ==> Readable(b, schema, q.node.value)
  }

  predicate ExactQuery<T>(b: Backend, schema: Schema<T>, q: Query) {
    q.node.Some? ==> Exact(Kinds(b, schema), q.node.value)
  }

  lemma SurvivesPasses<T>(b: Backend, schema: Schema<T>, db: Database<T>, q: Query, o: QueryOption, row: T)
    requires PlanOf(b, schema, q, o) && ReadableQuery(b, schema, q)
    ensures Survives(schema, db, o, row) <==> (q.node.Some? ==>
      Passes(Kinds(b, schema), Valuation(b, schema, db.world, row), q.node.value))
  {
    if q.node.Some? {
      CollectedPasses(b, schema, db.world, row, q.node.value);
      EvaluatedPasses(b, schema, db.world, row, q.node.value);
    }
  }

  /** Under SQL's three-valued logic a row for which the tree is TRUE is never lost. */
  lemma NoLostRow<T>(b: Backend, schema: Schema<T>, db: Database<T>, q: Query, o: QueryOption, row: T)
    requires PlanOf(b, schema, q, o) && ReadableQuery(b, schema, q)
    requires Matches(b, schema, db.world, q, row)
    ensures Survives(schema, db, o, row)
  {
    SurvivesPasses(b, schema, db, q, o, row);
    if q.node.Some? {
      TrueTreePasses(Kinds(b, schema), Valuation(b, schema, db.world, row), q.node.value);
    }
  }

  /** Under the exactness condition the surviving rows are those for which the tree is TRUE. */
  lemma PushdownExact<T>(b: Backend, schema: Schema<T>, db: Database<T>, q: Query, o: QueryOption, row: T)
    requires PlanOf(b, schema, q, o) && ReadableQuery(b, schema, q) && ExactQuery(b, schema, q)
    ensures Survives(schema, db, o, row) <==> Matches(b, schema, db.world, q, row)
  {
    SurvivesPasses(b, schema, db, q, o, row);
    if q.node.Some? {
      var kind, v, n := Kinds(b, schema), Valuation(b, schema, db.world, row), q.node.value;
      ExactDecides(kind, v, n);
      if !SomeMemory(kind, n) { NoMemoryPasses(kind, v, n); }
    }
  }

  /** A mixed OR in the real planner: the row is neither `a` nor matched, yet both passes keep it. */
  lemma MixedOrLeaks()
    ensures
      var b := Backend(_ => None, _ => None, _ => None, c => c, "LIKE");
      var schema: Schema<(bool, bool)> := map[
        "name" := FieldDef(StringField, [], "name", None, None, "", None),
        "memo" := FieldDef(StringField, [], "", None, Some((row: (bool, bool), op, val) => row.1), "", None)];
      var world := World((row: (bool, bool), c) => if row.0 then True3 else False3, (row, n) => False3);
      var db := Database(world, (dirs, rows) => rows);
      var tree := Logical(Or, Comparison("name", Eq, "a"), Comparison("memo", Eq, "b"));
      var q := Query(Some(tree), []);
      && ValidQuery(b, schema, q)
      && (forall o :: PlanOf(b, schema, q, o) ==> Survives(schema, db, o, (false, false)))
      && Meaning(b, schema, world, (false, false), tree) == False3
  {
  }

  // ─── Whole queries ──────────────────────────────────────────────────────────

  ghost predicate PlansOf<T>(b: Backend, schema: Schema<T>, qs: seq<Query>, opts: seq<QueryOption>) {
    && |qs| == |opts|
    && forall i :: 0 <= i < |qs| ==> PlanOf(b, schema, qs[i], opts[i]) && ReadableQuery(b, schema, qs[i])
  }

  function MatchesAll<T>(b: Backend, schema: Schema<T>, w: World<T>, qs: seq<Query>): T -> bool {
    row => forall i :: 0 <= i < |qs| ==> Matches(b, schema, w, qs[i], row)
  }

  function MemAll<T>(schema: Schema<T>, opts: seq<QueryOption>): T -> bool {
    row => forall i :: 0 <= i < |opts| ==> Retains(schema, opts[i], row)
  }

  ghost predicate SortsConsistent<T(!new)>(schema: Schema<T>, opts: seq<QueryOption>) {
    forall i :: 0 <= i < |opts| && opts[i].needSort ==> Comparators(schema, opts[i].query.sorts)
  }

  lemma MemPassKeeps<T(!new)>(schema: Schema<T>, o: QueryOption, items: seq<T>)
    requires o.needSort ==> Comparators(schema, o.query.sorts)
    ensures multiset(MemPass(schema, o, items)) == multiset(Keep(Retaining(schema, o), items))
  {
    var filtered := if o.needFilter then Keep(RowFilter(schema, o.query.node), items) else items;
    if o.needFilter {
      KeepSame(RowFilter(schema, o.query.node), Retaining(schema, o), items);
    } else {
      KeepAll(Retaining(schema, o), items);
    }
    if o.needSort {
      LessStrictWeak(schema, o.query.sorts);
      SortSorted(Less(schema, o.query.sorts), filtered);
    }
  }

  lemma MemAllSplits<T>(schema: Schema<T>, opts: seq<QueryOption>, x: T)
    requires opts != []
    ensures MemAll(schema, opts)(x) <==> Retaining(schema, opts[0])(x) && MemAll(schema, opts[1..])(x)
  {
    var later := opts[1..];
    assert forall i :: 0 <= i < |later| ==> later[i] == opts[i + 1];
    assert forall i :: 0 < i < |opts| ==> opts[i] == later[i - 1];
  }

  /** Which rows survive every in-memory pass, up to order. */
  lemma {:induction false} MemPassesKeep<T(!new)>(schema: Schema<T>, opts: seq<QueryOption>, items: seq<T>)
    requires SortsConsistent(schema, opts)
    ensures multiset(MemPasses(schema, opts, items)) == multiset(Keep(MemAll(schema, opts), items))
  {
    if opts == [] {
      KeepAll(MemAll(schema, opts), items);
    } else {
      var later, here := opts[1..], Retaining(schema, opts[0]);
      assert forall i :: 0 <= i < |later| ==> later[i] == opts[i + 1];
      var passed := MemPass(schema, opts[0], items);
      MemPassKeeps(schema, opts[0], items);
      MemPassesKeep(schema, later, passed);
      KeepPermuted(MemAll(schema, later), passed, Keep(here, items));
      forall x
        ensures MemAll(schema, opts)(x) <==> here(x) && MemAll(schema, later)(x)
      {
        MemAllSplits(schema, opts, x);
      }
      KeepKeep(here, MemAll(schema, later), MemAll(schema, opts), items);
    }
  }

  function SurvivesAll<T>(schema: Schema<T>, db: Database<T>, opts: seq<QueryOption>): T -> bool {
    row => forall i :: 0 <= i < |opts| ==> Survives(schema, db, opts[i], row)
  }

  lemma {:induction false} AcceptsAll<T>(db: Database<T>, opts: seq<QueryOption>, row: T)
    ensures Accepted(db.world, row, AllConds(opts)) <==>
      forall i :: 0 <= i < |opts| ==> Accepted(db.world, row, opts[i].conds)
  {
    if opts != [] {
      var x, later := opts[0].conds, opts[1..];
      AcceptsAll(db, later, row);
      var y := AllConds(later);
      assert forall i :: 0 <= i < |x| ==> (x + y)[i] == x[i];
      assert forall i :: 0 <= i < |y| ==> y[i] == (x + y)[|x| + i];
      assert forall i :: 0 < i < |opts| ==> opts[i] == later[i - 1];
      assert forall i :: 0 <= i < |later| ==> later[i] == opts[i + 1];
    }
  }

  /** The rows `Find` returns, up to order: those that survive every option. */
  lemma FoundSurvivors<T(!new)>(schema: Schema<T>, db: Database<T>, opts: seq<QueryOption>, table: seq<T>)
    requires Orders(db) && SortsConsistent(schema, opts)
    ensures multiset(Found(schema, db, opts, table)) == multiset(Keep(SurvivesAll(schema, db, opts), table))
  {
    var accepted := db.Accepting(AllConds(opts));
    var rows := Keep(accepted, table);
    var selected := db.order(AllDirs(opts), rows);
    MemPassesKeep(schema, opts, selected);
    KeepPermuted(MemAll(schema, opts), selected, rows);
    forall x
      ensures SurvivesAll(schema, db, opts)(x) <==> accepted(x) && MemAll(schema, opts)(x)
    {
      AcceptsAll(db, opts, x);
    }
    KeepKeep(accepted, MemAll(schema, opts), SurvivesAll(schema, db, opts), table);
  }

  /** `Find` returns exactly the matching rows, each as often as the table holds it. */
  lemma FindExact<T(!new)>(b: Backend, schema: Schema<T>, db: Database<T>, qs: seq<Query>,
      opts: seq<QueryOption>, table: seq<T>)
    requires Orders(db) && SortsConsistent(schema, opts) && PlansOf(b, schema, qs, opts)
    requires forall i :: 0 <= i < |qs| ==> ExactQuery(b, schema, qs[i])
    ensures multiset(Found(schema, db, opts, table)) == multiset(Keep(MatchesAll(b, schema, db.world, qs), table))
  {
    FoundSurvivors(schema, db, opts, table);
    forall x
      ensures SurvivesAll(schema, db, opts)(x) <==> MatchesAll(b, schema, db.world, qs)(x)
    {
      forall i | 0 <= i < |qs|
        ensures Survives(schema, db, opts[i], x) <==> Matches(b, schema, db.world, qs[i], x)
      {
        PushdownExact(b, schema, db, qs[i], opts[i], x);
      }
    }
    KeepSame(SurvivesAll(schema, db, opts), MatchesAll(b, schema, db.world, qs), table);
  }

  /** Whatever the trees, `Find` returns every matching row of the table. */
  lemma FindLosesNothing<T(!new)>(b: Backend, schema: Schema<T>, db: Database<T>, qs: seq<Query>,
      opts: seq<QueryOption>, table: seq<T>)
    requires Orders(db) && SortsConsistent(schema, opts) && PlansOf(b, schema, qs, opts)
    ensures multiset(Keep(MatchesAll(b, schema, db.world, qs), table)) <= multiset(Found(schema, db, opts, table))
  {
    FoundSurvivors(schema, db, opts, table);
    var matches, survives := MatchesAll(b, schema, db.world, qs), SurvivesAll(schema, db, opts);
    forall x
      ensures multiset(Keep(matches, table))[x] <= multiset(Keep(survives, table))[x]
    {
      KeepMultiset(matches, table, x);
      KeepMultiset(survives, table, x);
      if matches(x) {
        forall i | 0 <= i < |qs|
          ensures Survives(schema, db, opts[i], x)
        {
          NoLostRow(b, schema, db, qs[i], opts[i], x);
        }
      }
    }
  }

  lemma FoundOne<T>(schema: Schema<T>, db: Database<T>, o: QueryOption, table: seq<T>)
    ensures Found(schema, db, [o], table) == MemPass(schema, o, db.Select(o.conds, o.dirs, table))
  {
    OneOption(schema, o, db.Select(o.conds, o.dirs, table));
  }

  lemma FilteredRows<T>(b: Backend, schema: Schema<T>, db: Database<T>, q: Query, o: QueryOption, table: seq<T>)
    requires PlanOf(b, schema, q, o) && ReadableQuery(b, schema, q) && ExactQuery(b, schema, q)
    ensures var rows := Keep(db.Accepting(o.conds), table);
      (if o.needFilter then Keep(RowFilter(schema, q.node), rows) else rows)
      == Keep(Matching(b, schema, db.world, q), table)
  {
    var accepted, filter, matches := db.Accepting(o.conds), RowFilter(schema, q.node), Matching(b, schema, db.world, q);
    forall x
      ensures matches(x) <==> accepted(x) && (o.needFilter ==> filter(x))
    {
      PushdownExact(b, schema, db, q, o, x);
    }
    if o.needFilter {
      KeepKeep(accepted, filter, matches, table);
    } else {
      KeepSame(accepted, matches, table);
    }
  }

  /** One exact query without sort keys finds the matching rows in table order. */
  lemma FindUnsorted<T(!new)>(b: Backend, schema: Schema<T>, db: Database<T>, q: Query, o: QueryOption, table: seq<T>)
    requires Orders(db) && PlanOf(b, schema, q, o) && ReadableQuery(b, schema, q) && ExactQuery(b, schema, q)
    requires q.sorts == []
    ensures Found(schema, db, [o], table) == Keep(Matching(b, schema, db.world, q), table)
  {
    FoundOne(schema, db, o, table);
    FilteredRows(b, schema, db, q, o, table);
  }

  lemma NoFilterKeeps<T>(b: Backend, schema: Schema<T>, w: World<T>, node: Option<Node>, row: T)
    requires !NeedsFilter(schema, node)
    ensures RowFilter(schema, node)(row)
  {
    if node.Some? {
      EvaluatedPasses(b, schema, w, row, node.value);
      NoMemoryPasses(Kinds(b, schema), Valuation(b, schema, w, row), node.value);
    }
  }

  /** The rows the database returns for the query, in its order by the keys that have a column. */
  function Selected<T>(b: Backend, schema: Schema<T>, db: Database<T>, q: Query, table: seq<T>): seq<T> {
    db.Select(Conds(b, schema, q.node), OrderBy(schema, q.sorts), table)
  }

  /**
   * One query not sorted in memory: the result is what the database returned, less the rows the
   * in-memory filter rejects, so every order the database gave survives.
   */
  lemma FindInDatabaseOrder<T(!new)>(
    b: Backend, schema: Schema<T>, db: Database<T>, q: Query, o: QueryOption, table: seq<T>)
    requires PlanOf(b, schema, q, o) && !NeedsMemSort(schema, q.sorts)
    ensures var selected, found := Selected(b, schema, db, q, table), Found(schema, db, [o], table);
      && found == Keep(RowFilter(schema, q.node), selected)
      && forall less :: Sorted(less, selected) ==> Sorted(less, found)
  {
    var selected := Selected(b, schema, db, q, table);
    FoundOne(schema, db, o, table);
    if !o.needFilter {
      forall row
        ensures RowFilter(schema, q.node)(row)
      {
        NoFilterKeeps(b, schema, db.world, q.node, row);
      }
      KeepAll(RowFilter(schema, q.node), selected);
    }
    forall less | Sorted(less, selected)
      ensures Sorted(less, Keep(RowFilter(schema, q.node), selected))
    {
      KeepSorted(less, RowFilter(schema, q.node), selected);
    }
  }

  /**
   * One query sorted in memory: the result is the stable order of the matching rows of the
   * table, by the query's own keys, and the only sequence that is.
   */
  lemma FindSorted<T(!new)>(b: Backend, schema: Schema<T>, db: Database<T>, q: Query, o: QueryOption,
      table: seq<T>, ys: seq<T>)
    requires Orders(db) && PlanOf(b, schema, q, o) && ReadableQuery(b, schema, q) && ExactQuery(b, schema, q)
    requires NeedsMemSort(schema, q.sorts) && Comparators(schema, q.sorts)
    ensures ys == Found(schema, db, [o], table) <==>
      StableOrderOf(Less(schema, q.sorts), Keep(Matching(b, schema, db.world, q), table), ys)
  {
    var less, matching := Less(schema, q.sorts), Keep(Matching(b, schema, db.world, q), table);
    FoundOne(schema, db, o, table);
    FilteredRows(b, schema, db, q, o, table);
    LessStrictWeak(schema, q.sorts);
    SortIsStable(less, matching);
    if StableOrderOf(less, matching, ys) {
      StableOrderUnique(less, ys, StableSort(less, matching));
    }
  }
}
