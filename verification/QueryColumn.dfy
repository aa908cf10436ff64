/**
 * What the conditions on columns say: a reading of `<column> <sign> ?` that knows nothing of the
 * operators of the filter language, and the proof that every leaf asks for what its operator says.
 */
module QueryColumn {
  import opened Wrappers
  import opened QueryAst
  import opened QuerySql
  import opened QueryPlan
  import opened QueryLeak

  // ─── Reading the text ───────────────────────────────────────────────────────

  /** The columns of a row, NULL being `None`, how values compare, and which match a LIKE pattern. */
  datatype Columns<!T> = Columns(
    value: (T, string) -> Option<Arg>,
    compare: (Arg, Arg) -> int,
    like: (Arg, string) -> bool)

  /** The six signs of SQL, on the result of a three-way comparison. */
  predicate SignHolds(sign: string, order: int) {
    || (sign == "=" && order == 0)
    || (sign == "!=" && order != 0)
    || (sign == ">" && order > 0)
    || (sign == "<" && order < 0)
    || (sign == ">=" && order >= 0)
    || (sign == "<=" && order <= 0)
  }

  function Signs(): set<string> { {"=", "!=", ">", "<", ">=", "<="} }

  /** `<column> <sign> ?` */
  function ColumnText(b: Backend, col: string, sign: string): string {
    b.quoteIdent(col) + " " + sign + " ?"
  }

  /** A condition on NULL is UNKNOWN. */
  function OnValue(v: Option<Arg>, holds: Arg -> bool): Truth {
    if v.None? then Unknown3 else if holds(v.value) then True3 else False3
  }

  ghost predicate ReadsSigns<T(!new)>(b: Backend, cols: Columns<T>, w: World<T>) {
    forall row, col, sign, arg :: sign in Signs() ==>
      w.atom(row, DbCond(ColumnText(b, col, sign), [arg])) ==
      OnValue(cols.value(row, col), x => SignHolds(sign, cols.compare(x, arg)))
  }

  ghost predicate ReadsLike<T(!new)>(b: Backend, cols: Columns<T>, w: World<T>) {
    forall row, col, pattern ::
      w.atom(row, DbCond(ColumnText(b, col, b.likeOperator), [TextArg(pattern)])) ==
      OnValue(cols.value(row, col), x => cols.like(x, pattern))
  }

  /** The database reads conditions on columns as SQL. */
  ghost predicate ReadsColumns<T(!new)>(b: Backend, cols: Columns<T>, w: World<T>) {
    ReadsSigns(b, cols, w) && ReadsLike(b, cols, w)
  }

  // ─── What a leaf asks for ───────────────────────────────────────────────────

  /** The operators of the filter language that compare. */
  predicate OpHolds(op: Op, order: int) {
    match op
    case Eq => order == 0
    case Ne => order != 0
    case Gt => order > 0
    case Lt => order < 0
    case Gte => order >= 0
    case Lte => order <= 0
    case _ => false
  }

  /** The value as the field's type reads it. */
  function TypedValue(b: Backend, typ: FieldType, value: string): Arg
    requires Reads(b, typ, value)
  {
    match typ
    case StringField => TextArg(value)
    case IntField => IntArg(b.parseInt(value).value)
    case BoolField => BoolArg(b.parseBool(value).value)
    case FloatField => FloatArg(b.parseFloat(value).value)
  }

  /**
   * The leaf, asked of the row: by its FilterFn; else by its SQLExpr, if that accepts it; else of
   * its column, with the operator it names and its value, the last three operators by pattern.
   */
  function Asked<T>(b: Backend, schema: Schema<T>, cols: Columns<T>, w: World<T>, row: T, n: Node): Truth
    requires ValidLeaf(b, schema, n)
  {
    var def := schema[n.field];
    var v := cols.value(row, def.column);
    if def.filterFn.Some? then
      if def.filterFn.value(row, n.op, n.value) then True3 else False3
    else if def.sqlExpr.Some? then
      match def.sqlExpr.value(n.op, n.value)
      case Ok(c) => CondTruth(w, row, c)
      case Err(_) => w.lost(row, n)
    else if !Reads(b, def.typ, n.value) then Unknown3
    else
      match n.op
      case Prefix => OnValue(v, x => cols.like(x, n.value + "%"))
      case Suffix => OnValue(v, x => cols.like(x, "%" + n.value))
      case Like => OnValue(v, x => cols.like(x, n.value))
      case Other(_) => w.lost(row, n)
      case _ => OnValue(v, x => OpHolds(n.op, cols.compare(x, TypedValue(b, def.typ, n.value))))
  }

  // ─── Every leaf means what it asks ──────────────────────────────────────────

  function SignOf(op: Op): string {
    match op
    case Eq => "="
    case Ne => "!="
    case Gt => ">"
    case Lt => "<"
    case Gte => ">="
    case Lte => "<="
    case _ => ""
  }

  lemma SignsAreOperators(op: Op, order: int)
    requires IsComparison(op)
    ensures SignOf(op) in Signs() && (SignHolds(SignOf(op), order) <==> OpHolds(op, order))
  {
  }

  lemma ComparisonText(b: Backend, col: string, op: Op, val: string, typ: FieldType)
    requires IsComparison(op) && Reads(b, typ, val)
    ensures ColumnCond(b, col, op, val, typ) == Ok(DbCond(ColumnText(b, col, SignOf(op)), [TypedValue(b, typ, val)]))
  {
    var q := b.quoteIdent(col);
    assert (q + " ") + SignOf(op) + " ?" == q + (" " + SignOf(op) + " ?");
    assert " " + SignOf(op) + " ?" ==
      match op
      case Eq => " = ?"
      case Ne => " != ?"
      case Gt => " > ?"
      case Lt => " < ?"
      case Gte => " >= ?"
      case _ => " <= ?";
  }

  lemma MatchText(b: Backend, col: string, op: Op, val: string, typ: FieldType)
    requires IsMatch(op)
    ensures var pattern := match op case Prefix => val + "%" case Suffix => "%" + val case _ => val;
      ColumnCond(b, col, op, val, typ) == Ok(DbCond(ColumnText(b, col, b.likeOperator), [TextArg(pattern)]))
  {
  }

  lemma ComparisonMeans<T(!new)>(b: Backend, cols: Columns<T>, w: World<T>, row: T, col: string, op: Op, arg: Arg)
    requires ReadsSigns(b, cols, w) && IsComparison(op)
    ensures w.atom(row, DbCond(ColumnText(b, col, SignOf(op)), [arg]))
         == OnValue(cols.value(row, col), x => OpHolds(op, cols.compare(x, arg)))
  {
    var v, sign := cols.value(row, col), SignOf(op);
    SignsAreOperators(op, 0);
    if v.Some? {
      SignsAreOperators(op, cols.compare(v.value, arg));
    }
    hide SignHolds, OpHolds, SignOf, Signs, ColumnText;
    assert w.atom(row, DbCond(ColumnText(b, col, sign), [arg])) ==
      OnValue(v, x => SignHolds(sign, cols.compare(x, arg)));
  }

  lemma AtomTruth<T>(w: World<T>, row: T, c: DbCond)
    requires SplitTop(c.sql) == Atom
    ensures CondTruth(w, row, c) == w.atom(row, c)
  {
    hide SplitTop;
  }

  /**
   * The condition of a validated column leaf says what the leaf asks, for all nine operators:
   * the operator, applied to the row's column and the value read as the field's type.
   */
  lemma ColumnLeafMeans<T(!new)>(b: Backend, schema: Schema<T>, cols: Columns<T>, w: World<T>, row: T, n: Node)
    requires ReadsColumns(b, cols, w) && ValidLeaf(b, schema, n) && !n.op.Other?
    requires var def := schema[n.field]; def.IsDBLevel() && def.sqlExpr.None? && Plain(b.quoteIdent(def.column))
    ensures LeafCond(b, schema, n).Some?
    ensures CondTruth(w, row, LeafCond(b, schema, n).value) == Asked(b, schema, cols, w, row, n)
  {
    var def := schema[n.field];
    var c := ColumnCond(b, def.column, n.op, n.value, def.typ);
    ValidLeafIff(b, schema, n.field, n.op, n.value);
    assert IsComparison(n.op) || IsMatch(n.op);
    if IsComparison(n.op) {
      ComparisonText(b, def.column, n.op, n.value, def.typ);
      ComparisonMeans(b, cols, w, row, def.column, n.op, TypedValue(b, def.typ, n.value));
    } else {
      MatchText(b, def.column, n.op, n.value, def.typ);
    }
    ColumnIsAtom(b, def.column, n.op, n.value, def.typ);
    AtomTruth(w, row, c.value);
    hide ColumnCond, ColumnText, SplitTop, CondTruth, ValidateLeaf, OpHolds;
  }

  /** Every leaf of a valid tree, whichever side evaluates it, means what it asks. */
  lemma LeafMeans<T(!new)>(b: Backend, schema: Schema<T>, cols: Columns<T>, w: World<T>, row: T, n: Node)
    requires ReadsColumns(b, cols, w) && ValidLeaf(b, schema, n) && !n.op.Other?
    requires Plain(b.quoteIdent(schema[n.field].column))
    ensures LeafTruth(b, schema, w, row, n) == Asked(b, schema, cols, w, row, n)
  {
    var def := schema[n.field];
    ValidLeafIff(b, schema, n.field, n.op, n.value);
    if def.filterFn.None? && def.sqlExpr.None? {
      ColumnLeafMeans(b, schema, cols, w, row, n);
      hide ColumnCond, CondTruth, ReadsColumns, Asked, ValidateLeaf;
    } else {
      hide ColumnCond, CondTruth, ReadsColumns, ValidateLeaf, OpHolds;
    }
  }

  /** The tree, its leaves asked of the row. */
  ghost function AskedTree<T>(b: Backend, schema: Schema<T>, cols: Columns<T>, w: World<T>, row: T, n: Node): Truth
    requires forall leaf :: leaf in Leaves(n) ==> ValidLeaf(b, schema, leaf)
  {
    match n
    case Comparison(_, _, _) =>
      assert n in Leaves(n);
      Asked(b, schema, cols, w, row, n)
    case Logical(lop, l, r) =>
      var x, y := AskedTree(b, schema, cols, w, row, l), AskedTree(b, schema, cols, w, row, r);
      match lop
      case And => if x == True3 then y else if y == True3 then x else if x == y then x else False3
      case Or => if x == False3 then y else if y == False3 then x else if x == y then x else True3
  }

  /** The quoted column names hold no parenthesis and no placeholder. */
  ghost predicate PlainColumns<T>(b: Backend, schema: Schema<T>) {
    forall f :: f in schema ==> Plain(b.quoteIdent(schema[f].column))
  }

  /** The meaning of a valid tree is what it asks, leaf by leaf, under three-valued logic. */
  lemma {:induction false} MeaningIsAsked<T(!new)>(
    b: Backend, schema: Schema<T>, cols: Columns<T>, w: World<T>, row: T, n: Node)
    requires ReadsColumns(b, cols, w) && PlainColumns(b, schema)
    requires forall leaf :: leaf in Leaves(n) ==> ValidLeaf(b, schema, leaf) && !leaf.op.Other?
    ensures Meaning(b, schema, w, row, n) == AskedTree(b, schema, cols, w, row, n)
  {
    if n.Logical? {
      MeaningIsAsked(b, schema, cols, w, row, n.left);
      MeaningIsAsked(b, schema, cols, w, row, n.right);
    } else {
      assert n in Leaves(n);
      LeafMeans(b, schema, cols, w, row, n);
      hide LeafTruth, Asked, ValidLeaf, ReadsColumns;
    }
  }

  // ─── Patterns ───────────────────────────────────────────────────────────────

  /** No character that LIKE treats specially. */
  predicate Literal(s: string) { forall i :: 0 <= i < |s| ==> s[i] !in "%_\\" }

  /** `s` begins with `t`, character by character up to the collation. */
  predicate Begins(same: (char, char) -> bool, s: string, t: string) {
    |t| <= |s| && forall i :: 0 <= i < |t| ==> same(s[i], t[i])
  }

  predicate Ends(same: (char, char) -> bool, s: string, t: string) {
    |t| <= |s| && forall i :: 0 <= i < |t| ==> same(s[|s| - |t| + i], t[i])
  }

  /** What LIKE promises of a literal text with a `%` after it, before it, or none. */
  ghost predicate IsLike<T(!new)>(cols: Columns<T>, same: (char, char) -> bool) {
    forall s, t :: Literal(t) ==>
      && (cols.like(TextArg(s), t + "%") <==> Begins(same, s, t))
      && (cols.like(TextArg(s), "%" + t) <==> Ends(same, s, t))
      && (cols.like(TextArg(s), t) <==> |s| == |t| && Begins(same, s, t))
  }

  /** On a text column, for a value without wildcards, the three operators mean their names. */
  lemma MatchingMeans<T(!new)>(b: Backend, schema: Schema<T>, cols: Columns<T>, w: World<T>, row: T, n: Node,
      same: (char, char) -> bool, s: string)
    requires IsLike(cols, same) && ValidLeaf(b, schema, n) && IsMatch(n.op) && Literal(n.value)
    requires var def := schema[n.field]; def.IsDBLevel() && def.sqlExpr.None?
    requires cols.value(row, schema[n.field].column) == Some(TextArg(s))
    ensures var t := Asked(b, schema, cols, w, row, n);
      && t != Unknown3
      && (n.op == Prefix ==> (t == True3 <==> Begins(same, s, n.value)))
      && (n.op == Suffix ==> (t == True3 <==> Ends(same, s, n.value)))
      && (n.op == Like ==> (t == True3 <==> |s| == |n.value| && Begins(same, s, n.value)))
  {
    ValidLeafIff(b, schema, n.field, n.op, n.value);
    hide Begins, Ends, Literal, ValidateLeaf;
  }
}
