/** From a filter string to the rows it finds. */
module QueryEndToEnd {
  import opened Wrappers
  import opened Sequences
  import opened QueryAst
  import opened QueryParser
  import opened QueryPrinter
  import opened QuerySql
  import opened QueryPlan
  import opened QuerySort
  import opened QuerySortText
  import opened QueryFind
  import opened QueryColumn

  /** The SQL expression of the leaf's field, if the database evaluates it, accepts the leaf. */
  predicate ExpressionAccepts<T>(schema: Schema<T>, leaf: Node) {
    leaf.Comparison? && leaf.field in schema ==>
      schema[leaf.field].filterFn.None? && schema[leaf.field].sqlExpr.Some? ==>
      schema[leaf.field].sqlExpr.value(leaf.op, leaf.value).Ok?
  }

  lemma {:induction false} PrintableOps(a: Alphabet, n: Node, leaf: Node)
    requires Printable(a, n) && leaf in Leaves(n)
    ensures leaf.Comparison? && !leaf.op.Other?
  {
    if n.Logical? {
      if leaf in Leaves(n.left) {
        PrintableOps(a, n.left, leaf);
      } else {
        PrintableOps(a, n.right, leaf);
      }
    }
  }

  lemma ValidLeafIsEvaluated<T>(b: Backend, schema: Schema<T>, leaf: Node)
    requires ValidLeaf(b, schema, leaf) && !leaf.op.Other?
    ensures KindOf(b, schema, leaf) == Lost <==> !ExpressionAccepts(schema, leaf)
  {
  }

  /**
   * A leaf of a parsed and validated filter is evaluated by exactly one side; only a failing
   * SQLExpr can drop it. The unsupported-operator error of column fields cannot arise.
   */
  lemma ParsedLeafIsEvaluated<T>(a: Alphabet, b: Backend, schema: Schema<T>, text: string, n: Node, leaf: Node)
    requires a.Valid() && Parse(a, text) == Ok(Some(n)) && ValidateNode(b, schema, n).Ok?
    requires leaf in Leaves(n)
    ensures KindOf(b, schema, leaf) == Lost <==> !ExpressionAccepts(schema, leaf)
  {
    hide *;
    PrintableIffParsed(a, n);
    PrintableOps(a, n, leaf);
    ValidLeafIsEvaluated(b, schema, leaf);
  }

  /**
   * On a database that reads conditions on columns as SQL, a row matches a request's filter iff
   * the filter, its operators asked of the row's columns and its FilterFns of the row, is TRUE.
   */
  lemma MatchesWhatIsAsked<T(!new)>(a: Alphabet, b: Backend, schema: Schema<T>, cols: Columns<T>, db: Database<T>,
      text: string, n: Node, row: T)
    requires a.Valid() && Parse(a, text) == Ok(Some(n)) && ValidateNode(b, schema, n).Ok?
    requires ReadsColumns(b, cols, db.world) && PlainColumns(b, schema)
    ensures Matches(b, schema, db.world, Query(Some(n), []), row) <==>
      AskedTree(b, schema, cols, db.world, row, n) == True3
  {
    PrintableIffParsed(a, n);
    forall leaf | leaf in Leaves(n)
      ensures !leaf.op.Other?
    {
      PrintableOps(a, n, leaf);
    }
    hide Parse, ReadsColumns, PlainColumns, ValidLeaf, Meaning, AskedTree;
    MeaningIsAsked(b, schema, cols, db.world, row, n);
  }

  datatype RequestError = BadSyntax(syntaxError: SyntaxError) | BadQuery(queryError: QueryError)

  /** The query a request with filter string `text` and sort string `order` asks for. */
  function Requested(a: Alphabet, text: string, order: string): Query
    requires Parse(a, text).Ok?
  {
    Query(Parse(a, text).value, Sorts(a, order))
  }

  /**
   * Which rows: none that makes the filter TRUE is lost, and when the tree splits exactly the
   * rows are those, each as often as in the table.
   */
  ghost predicate FindsRows<T(!new)>(
    b: Backend, schema: Schema<T>, db: Database<T>, q: Query, table: seq<T>, found: seq<T>)
  {
    var rows := Keep(Matching(b, schema, db.world, q), table);
    multiset(rows) <= multiset(found) && (ExactQuery(b, schema, q) ==> multiset(found) == multiset(rows))
  }

  /**
   * In which order: without a comparator among the keys in the database's order by the keys'
   * columns, which without keys is the table's; with one, for an exact tree, in the one stable
   * order of the keys that have comparators.
   */
  ghost predicate InOrder<T(!new)>(
    b: Backend, schema: Schema<T>, db: Database<T>, q: Query, table: seq<T>, found: seq<T>)
  {
    var rows, selected := Keep(Matching(b, schema, db.world, q), table), Selected(b, schema, db, q, table);
    && (!NeedsMemSort(schema, q.sorts) ==>
          && found == Keep(RowFilter(schema, q.node), selected)
          && forall less :: Sorted(less, selected) ==> Sorted(less, found))
    && (q.sorts == [] && ExactQuery(b, schema, q) ==> found == rows)
    && (NeedsMemSort(schema, q.sorts) && ExactQuery(b, schema, q) ==>
          StableOrderOf(Less(schema, q.sorts), rows, found))
  }

  /**
   * A request from its filter and sort strings to its rows. It is refused exactly when the
   * filter does not parse or a field, operator, value or sort key is not allowed. Otherwise it
   * finds the right rows in the right order, for a database that orders, consistent comparators
   * and conditions that can be read back.
   */
  method FindRequested<T(!new)>(a: Alphabet, b: Backend, schema: Schema<T>, db: Database<T>,
                                text: string, order: string, table: seq<T>)
    returns (r: Result<seq<T>, RequestError>)
    ensures r.Ok? <==> Parse(a, text).Ok? && ValidQuery(b, schema, Requested(a, text, order))
    ensures Parse(a, text).Err? ==> r == Err(BadSyntax(Parse(a, text).error))
    ensures Parse(a, text).Ok? && r.Err? ==> r.error.BadQuery?
    ensures r.Ok? ==>
      var q := Requested(a, text, order);
      Orders(db) && Comparators(schema, q.sorts) && ReadableQuery(b, schema, q) ==>
        FindsRows(b, schema, db, q, table, r.value) && InOrder(b, schema, db, q, table, r.value)
  {
    var parsed := ParseFilter(a, text);
    if parsed.Err? {
      return Err(BadSyntax(parsed.error));
    }
    var sorts := ParseSort(a, order);
    var q := Query(parsed.value, sorts);
    var option := ToOption(b, schema, q);
    if option.Err? {
      return Err(BadQuery(option.error));
    }
    var rows := Find(schema, db, [option.value], table);
    if Orders(db) && Comparators(schema, sorts) && ReadableQuery(b, schema, q) {
      RequestedRows(b, schema, db, q, option.value, table);
      RequestedOrder(b, schema, db, q, option.value, table);
    }
    return Ok(rows);
  }

  lemma RequestedRows<T(!new)>(
    b: Backend, schema: Schema<T>, db: Database<T>, q: Query, o: QueryOption, table: seq<T>)
    requires Orders(db) && Comparators(schema, q.sorts) && PlanOf(b, schema, q, o) && ReadableQuery(b, schema, q)
    ensures FindsRows(b, schema, db, q, table, Found(schema, db, [o], table))
  {
    assert PlansOf(b, schema, [q], [o]) && SortsConsistent(schema, [o]);
    forall row
      ensures MatchesAll(b, schema, db.world, [q])(row) <==> Matching(b, schema, db.world, q)(row)
    {
      assert [q][0] == q;
    }
    KeepSame(MatchesAll(b, schema, db.world, [q]), Matching(b, schema, db.world, q), table);
    FindLosesNothing(b, schema, db, [q], [o], table);
    if ExactQuery(b, schema, q) {
      FindExact(b, schema, db, [q], [o], table);
    }
  }

  lemma RequestedOrder<T(!new)>(
    b: Backend, schema: Schema<T>, db: Database<T>, q: Query, o: QueryOption, table: seq<T>)
    requires Orders(db) && Comparators(schema, q.sorts) && PlanOf(b, schema, q, o) && ReadableQuery(b, schema, q)
    ensures InOrder(b, schema, db, q, table, Found(schema, db, [o], table))
  {
    if !NeedsMemSort(schema, q.sorts) {
      FindInDatabaseOrder(b, schema, db, q, o, table);
    }
    if ExactQuery(b, schema, q) {
      if q.sorts == [] {
        FindUnsorted(b, schema, db, q, o, table);
      }
      if NeedsMemSort(schema, q.sorts) {
        FindSorted(b, schema, db, q, o, table, Found(schema, db, [o], table));
      }
    }
  }
}
