/**
 * The planner of app/components/queryfilter/option.go: one filter tree is split into SQL
 * conditions for the database and a pass over the returned rows.
 */
module QueryPlan {
  import opened Wrappers
  import opened QueryAst
  import opened QuerySql

  datatype FieldType = StringField | IntField | BoolField | FloatField

  /** How a query field is filtered and sorted. An absent column is the empty string. */
  datatype FieldDef<!T> = FieldDef(
    typ: FieldType,
    allowedOps: seq<Op>,
    column: string,
    sqlExpr: Option<(Op, string) -> Result<DbCond, string>>,
    filterFn: Option<(T, Op, string) -> bool>,
    sortColumn: string,
    sortFn: Option<(T, T) -> int>)
  {
    predicate IsDBLevel() { filterFn.None? && (column != "" || sqlExpr.Some?) }
  }

  type Schema<!T> = map<string, FieldDef<T>>

  /** The `strconv` parsers and the active SQL dialect. */
  datatype Backend = Backend(
    parseInt: string -> Option<int>,
    parseBool: string -> Option<bool>,
    parseFloat: string -> Option<string>,
    quoteIdent: string -> string,
    likeOperator: string)

  datatype FilterError =
    | UnknownField(field: string)
    | NotFilterable(field: string)
    | OpNotAllowed(op: Op, field: string)
    | ExpectsInt(field: string)
    | ExpectsBool(field: string)
    | ExpectsDecimal(field: string)

  function Leaves(n: Node): set<Node> {
    match n
    case Comparison(_, _, _) => {n}
    case Logical(_, l, r) => Leaves(l) + Leaves(r)
  }

  // ─── Validation ─────────────────────────────────────────────────────────────

  function ValidateLeaf<T>(b: Backend, schema: Schema<T>, field: string, op: Op,
      value: string): Result<(), FilterError>
  {
    if field !in schema then Err(UnknownField(field))
    else
      var def := schema[field];
      if def.column == "" && def.sqlExpr.None? && def.filterFn.None? then Err(NotFilterable(field))
      else if |def.allowedOps| > 0 && op !in def.allowedOps then Err(OpNotAllowed(op, field))
      else if def.typ == IntField && b.parseInt(value).None? then Err(ExpectsInt(field))
      else if def.typ == BoolField && b.parseBool(value).None? then Err(ExpectsBool(field))
      else if def.typ == FloatField && b.parseFloat(value).None? then Err(ExpectsDecimal(field))
      else Ok(())
  }

  predicate ValidLeaf<T>(b: Backend, schema: Schema<T>, n: Node) {
    n.Comparison? && ValidateLeaf(b, schema, n.field, n.op, n.value).Ok?
  }

  function ValidateNode<T>(b: Backend, schema: Schema<T>, n: Node): (r: Result<(), FilterError>)
    ensures r.Ok? <==> forall leaf :: leaf in Leaves(n) ==> ValidLeaf(b, schema, leaf)
  {
    match n
    case Comparison(f, op, v) =>
      assert Leaves(n) == {n};
      ValidateLeaf(b, schema, f, op, v)
    case Logical(_, l, r) =>
      var left := ValidateNode(b, schema, l);
      if left.Err? then left else ValidateNode(b, schema, r)
  }

  /** The value reads as the field's type. */
  predicate Reads(b: Backend, typ: FieldType, value: string) {
    match typ
    case StringField => true
    case IntField => b.parseInt(value).Some?
    case BoolField => b.parseBool(value).Some?
    case FloatField => b.parseFloat(value).Some?
  }

  function TypeError(typ: FieldType, field: string): FilterError {
    match typ
    case IntField => ExpectsInt(field)
    case BoolField => ExpectsBool(field)
    case _ => ExpectsDecimal(field)
  }

  /**
   * A leaf is allowed iff its field is known and can be filtered on, its operator is among the
   * allowed ones (none listed allows all), and its value reads as the field's type; the error is
   * the first of these that fails.
   */
  lemma ValidLeafIff<T>(b: Backend, schema: Schema<T>, f: string, op: Op, v: string)
    ensures var r := ValidateLeaf(b, schema, f, op, v);
      if f !in schema then r == Err(UnknownField(f))
      else
        var def := schema[f];
        if def.column == "" && def.sqlExpr == None && def.filterFn == None then r == Err(NotFilterable(f))
        else if def.allowedOps != [] && op !in def.allowedOps then r == Err(OpNotAllowed(op, f))
        else if !Reads(b, def.typ, v) then r == Err(TypeError(def.typ, f))
        else r == Ok(())
  {
  }

  /** The leaves from left to right. */
  function LeafList(n: Node): seq<Node> {
    match n
    case Comparison(_, _, _) => [n]
    case Logical(_, l, r) => LeafList(l) + LeafList(r)
  }

  /** A refused tree is refused for its leftmost leaf that is not allowed. */
  lemma {:induction false} LeftmostError<T>(b: Backend, schema: Schema<T>, n: Node) returns (i: nat)
    requires ValidateNode(b, schema, n).Err?
    ensures i < |LeafList(n)| && LeafList(n)[i].Comparison?
    ensures var leaf := LeafList(n)[i];
      && !ValidLeaf(b, schema, leaf)
      && ValidateNode(b, schema, n) == ValidateLeaf(b, schema, leaf.field, leaf.op, leaf.value)
    ensures forall j :: 0 <= j < i ==> ValidLeaf(b, schema, LeafList(n)[j])
  {
    match n {
      case Comparison(_, _, _) =>
        i := 0;
      case Logical(_, l, r) =>
        LeavesListed(l);
        if ValidateNode(b, schema, l).Err? {
          i := LeftmostError(b, schema, l);
        } else {
          var k := LeftmostError(b, schema, r);
          i := |LeafList(l)| + k;
          assert forall j :: 0 <= j < |LeafList(l)| ==> LeafList(l)[j] in Leaves(l);
        }
    }
  }

  lemma {:induction false} LeavesListed(n: Node)
    ensures forall leaf :: leaf in LeafList(n) <==> leaf in Leaves(n)
  {
    if n.Logical? {
      LeavesListed(n.left);
      LeavesListed(n.right);
    }
  }

  // ─── Conditions for the database ────────────────────────────────────────────

  function Coerce(b: Backend, val: string, typ: FieldType): Arg {
    if typ == IntField && b.parseInt(val).Some? then IntArg(b.parseInt(val).value)
    else if typ == BoolField && b.parseBool(val).Some? then BoolArg(b.parseBool(val).value)
    else if typ == FloatField && b.parseFloat(val).Some? then FloatArg(b.parseFloat(val).value)
    else TextArg(val)
  }

  function ColumnCond(b: Backend, col: string, op: Op, val: string, typ: FieldType): Result<DbCond, string> {
    var q := b.quoteIdent(col);
    var arg := Coerce(b, val, typ);
    match op
    case Eq => Ok(DbCond(q + " = ?", [arg]))
    case Ne => Ok(DbCond(q + " != ?", [arg]))
    case Gt => Ok(DbCond(q + " > ?", [arg]))
    case Lt => Ok(DbCond(q + " < ?", [arg]))
    case Gte => Ok(DbCond(q + " >= ?", [arg]))
    case Lte => Ok(DbCond(q + " <= ?", [arg]))
    case Prefix => Ok(DbCond(q + " " + b.likeOperator + " ?", [TextArg(val + "%")]))
    case Suffix => Ok(DbCond(q + " " + b.likeOperator + " ?", [TextArg("%" + val)]))
    case Like => Ok(DbCond(q + " " + b.likeOperator + " ?", [TextArg(val)]))
    case Other(name) => Err("unsupported operator " + name)
  }

  function LeafCond<T>(b: Backend, schema: Schema<T>, n: Node): Option<DbCond>
    requires n.Comparison?
  {
    if n.field !in schema || !schema[n.field].IsDBLevel() then None
    else
      var def := schema[n.field];
      var c := if def.sqlExpr.Some? then def.sqlExpr.value(n.op, n.value)
               else ColumnCond(b, def.column, n.op, n.value, def.typ);
      if c.Ok? then Some(c.value) else None
  }

  predicate IsComparison(op: Op) { op == Eq || op == Ne || op == Gt || op == Lt || op == Gte || op == Lte }

  predicate IsMatch(op: Op) { op == Prefix || op == Suffix || op == Like }

  /** The argument is the value as its field's type reads it. */
  predicate ReadAs(b: Backend, typ: FieldType, value: string, arg: Arg) {
    match typ
    case IntField => b.parseInt(value).Some? && arg == IntArg(b.parseInt(value).value)
    case BoolField => b.parseBool(value).Some? && arg == BoolArg(b.parseBool(value).value)
    case FloatField => b.parseFloat(value).Some? && arg == FloatArg(b.parseFloat(value).value)
    case StringField => arg == TextArg(value)
  }

  /**
   * What a validated column leaf sends to the database: with the six comparison operators one
   * argument of the field's type, with prefix, suffix and like always text, whatever the type;
   * with any other operator nothing.
   */
  lemma ValidatedBinds<T>(b: Backend, schema: Schema<T>, n: Node)
    requires ValidLeaf(b, schema, n)
    requires var def := schema[n.field]; def.IsDBLevel() && def.sqlExpr.None?
    ensures var c, typ := LeafCond(b, schema, n), schema[n.field].typ;
      && (c.Some? <==> IsComparison(n.op) || IsMatch(n.op))
      && (c.Some? ==> |c.value.args| == 1)
      && (IsComparison(n.op) ==> ReadAs(b, typ, n.value, c.value.args[0]))
      && (IsMatch(n.op) ==> c.value.args[0].TextArg?)
      && (n.op == Prefix ==> c.value.args[0].s == n.value + "%")
      && (n.op == Suffix ==> c.value.args[0].s == "%" + n.value)
      && (n.op == Like ==> c.value.args[0].s == n.value)
  {
    assert n.op.Other? || IsComparison(n.op) || IsMatch(n.op);
  }

  /** A whole subtree as one condition; `None` when any leaf is not one. */
  function NodeCond<T>(b: Backend, schema: Schema<T>, n: Node): Option<DbCond> {
    match n
    case Comparison(_, _, _) => LeafCond(b, schema, n)
    case Logical(lop, l, r) =>
      var left := NodeCond(b, schema, l);
      var right := NodeCond(b, schema, r);
      if left.None? || right.None? then None
      else Some(DbCond(Render(lop, left.value.sql, right.value.sql), left.value.args + right.value.args))
  }

  /** AND collects both sides; OR is pushed only when its whole subtree is. */
  function CollectConds<T>(b: Backend, schema: Schema<T>, n: Node): seq<DbCond> {
    match n
    case Comparison(_, _, _) =>
      var c := LeafCond(b, schema, n);
      if c.Some? then [c.value] else []
    case Logical(And, l, r) => CollectConds(b, schema, l) + CollectConds(b, schema, r)
    case Logical(Or, _, _) =>
      var c := NodeCond(b, schema, n);
      if c.Some? then [c.value] else []
  }

  // ─── The pass over the returned rows ────────────────────────────────────────

  predicate HasMemFilter<T>(schema: Schema<T>, n: Node) {
    match n
    case Comparison(f, _, _) => f in schema && schema[f].filterFn.Some?
    case Logical(_, l, r) => HasMemFilter(schema, l) || HasMemFilter(schema, r)
  }

  /** Leaves without a FilterFn count as true: the database has handled them. */
  predicate EvalNode<T>(schema: Schema<T>, row: T, n: Node) {
    match n
    case Comparison(f, op, v) =>
      if f !in schema || schema[f].filterFn.None? then true
      else schema[f].filterFn.value(row, op, v)
    case Logical(And, l, r) => EvalNode(schema, row, l) && EvalNode(schema, row, r)
    case Logical(Or, l, r) => EvalNode(schema, row, l) || EvalNode(schema, row, r)
  }

  // ─── What the tree means ────────────────────────────────────────────────────

  /**
   * The database's verdict on a row: on an atomic condition, and on a leaf that no condition
   * expresses (an unknown field, a failing SQLExpr, an unsupported operator).
   */
  datatype World<!T> = World(atom: (T, DbCond) -> Truth, lost: (T, Node) -> Truth)

  datatype Kind = Pushed | Memory | Lost

  function KindOf<T>(b: Backend, schema: Schema<T>, n: Node): Kind {
    if n.Logical? then Lost
    else if n.field in schema && schema[n.field].filterFn.Some? then Memory
    else if LeafCond(b, schema, n).Some? then Pushed
    else Lost
  }

  function CondTruth<T>(w: World<T>, row: T, c: DbCond): Truth {
    Eval((atom: DbCond) => w.atom(row, atom), c)
  }

  function LeafTruth<T>(b: Backend, schema: Schema<T>, w: World<T>, row: T, n: Node): Truth {
    match KindOf(b, schema, n)
    case Memory =>
      if n.Comparison? && n.field in schema && schema[n.field].filterFn.Some? &&
         schema[n.field].filterFn.value(row, n.op, n.value) then True3 else False3
    case Pushed =>
      if n.Comparison? && LeafCond(b, schema, n).Some? then CondTruth(w, row, LeafCond(b, schema, n).value) else False3
    case Lost => w.lost(row, n)
  }

  /** The tree's three-valued meaning under a valuation of its leaves. */
  function Value(v: Node -> Truth, n: Node): Truth {
    match n
    case Comparison(_, _, _) => v(n)
    case Logical(lop, l, r) => Connect(lop, Value(v, l), Value(v, r))
  }

  function Valuation<T>(b: Backend, schema: Schema<T>, w: World<T>, row: T): Node -> Truth {
    n => LeafTruth(b, schema, w, row, n)
  }

  function Meaning<T>(b: Backend, schema: Schema<T>, w: World<T>, row: T, n: Node): Truth {
    Value(Valuation(b, schema, w, row), n)
  }

  // ─── The plan in terms of leaf kinds and truths ─────────────────────────────

  predicate AllKind(kind: Node -> Kind, k: Kind, n: Node) {
    match n
    case Comparison(_, _, _) => kind(n) == k
    case Logical(_, l, r) => AllKind(kind, k, l) && AllKind(kind, k, r)
  }

  predicate SomeMemory(kind: Node -> Kind, n: Node) {
    match n
    case Comparison(_, _, _) => kind(n) == Memory
    case Logical(_, l, r) => SomeMemory(kind, l) || SomeMemory(kind, r)
  }

  predicate PassesDb(kind: Node -> Kind, v: Node -> Truth, n: Node) {
    match n
    case Comparison(_, _, _) => kind(n) == Pushed ==> v(n) == True3
    case Logical(And, l, r) => PassesDb(kind, v, l) && PassesDb(kind, v, r)
    case Logical(Or, _, _) => AllKind(kind, Pushed, n) ==> Value(v, n) == True3
  }

  predicate PassesMemory(kind: Node -> Kind, v: Node -> Truth, n: Node) {
    match n
    case Comparison(_, _, _) => kind(n) == Memory ==> v(n) == True3
    case Logical(And, l, r) => PassesMemory(kind, v, l) && PassesMemory(kind, v, r)
    case Logical(Or, l, r) => PassesMemory(kind, v, l) || PassesMemory(kind, v, r)
  }

  predicate Passes(kind: Node -> Kind, v: Node -> Truth, n: Node) {
    PassesDb(kind, v, n) && (SomeMemory(kind, n) ==> PassesMemory(kind, v, n))
  }

  /** Every OR reached from the root through ANDs only is all pushed or all in memory. */
  predicate Exact(kind: Node -> Kind, n: Node) {
    match n
    case Comparison(_, _, _) => kind(n) != Lost
    case Logical(And, l, r) => Exact(kind, l) && Exact(kind, r)
    case Logical(Or, _, _) => AllKind(kind, Pushed, n) || AllKind(kind, Memory, n)
  }

  predicate DistinctLeaves(n: Node) {
    match n
    case Comparison(_, _, _) => true
    case Logical(_, l, r) => Leaves(l) !! Leaves(r) && DistinctLeaves(l) && DistinctLeaves(r)
  }

  lemma {:induction false} TrueTreePasses(kind: Node -> Kind, v: Node -> Truth, n: Node)
    requires Value(v, n) == True3
    ensures PassesDb(kind, v, n) && PassesMemory(kind, v, n)
  {
    match n {
      case Comparison(_, _, _) =>
      case Logical(And, l, r) =>
        TrueTreePasses(kind, v, l);
        TrueTreePasses(kind, v, r);
      case Logical(Or, l, r) =>
        if Value(v, l) == True3 {
          TrueTreePasses(kind, v, l);
        } else {
          TrueTreePasses(kind, v, r);
        }
    }
  }

  lemma {:induction false} MemoryTreeDecides(kind: Node -> Kind, v: Node -> Truth, n: Node)
    requires AllKind(kind, Memory, n)
    ensures PassesMemory(kind, v, n) <==> Value(v, n) == True3
    ensures SomeMemory(kind, n)
  {
    if n.Logical? {
      MemoryTreeDecides(kind, v, n.left);
      MemoryTreeDecides(kind, v, n.right);
    }
  }

  lemma {:induction false} NoMemoryPasses(kind: Node -> Kind, v: Node -> Truth, n: Node)
    requires !SomeMemory(kind, n)
    ensures PassesMemory(kind, v, n)
  {
    if n.Logical? {
      NoMemoryPasses(kind, v, n.left);
      NoMemoryPasses(kind, v, n.right);
    }
  }

  lemma {:induction false} PushedTreeHasNoMemory(kind: Node -> Kind, n: Node)
    requires AllKind(kind, Pushed, n)
    ensures !SomeMemory(kind, n) && !AllKind(kind, Memory, n)
  {
    if n.Logical? {
      PushedTreeHasNoMemory(kind, n.left);
      PushedTreeHasNoMemory(kind, n.right);
    }
  }

  lemma {:induction false} ExactDecides(kind: Node -> Kind, v: Node -> Truth, n: Node)
    requires Exact(kind, n)
    ensures PassesDb(kind, v, n) && PassesMemory(kind, v, n) <==> Value(v, n) == True3
  {
    match n {
      case Comparison(_, _, _) =>
      case Logical(And, l, r) =>
        ExactDecides(kind, v, l);
        ExactDecides(kind, v, r);
      case Logical(Or, l, r) =>
        if Value(v, n) == True3 {
          TrueTreePasses(kind, v, n);
        }
        if AllKind(kind, Memory, n) {
          MemoryTreeDecides(kind, v, n);
        }
    }
  }

  // ─── A mixed OR lets an extra row through ───────────────────────────────────

  function Constant(t: Truth): Node -> Truth { _ => t }

  /** `x` on the leaves of `n`, `y` elsewhere. */
  function Blend(n: Node, x: Node -> Truth, y: Node -> Truth): Node -> Truth {
    leaf => if leaf in Leaves(n) then x(leaf) else y(leaf)
  }

  predicate SameOn(n: Node, x: Node -> Truth, y: Node -> Truth) {
    forall leaf :: leaf in Leaves(n) ==> x(leaf) == y(leaf)
  }

  lemma {:induction false} OnlyLeavesMatter(kind: Node -> Kind, n: Node, x: Node -> Truth, y: Node -> Truth)
    requires SameOn(n, x, y)
    ensures Value(x, n) == Value(y, n)
    ensures PassesDb(kind, x, n) == PassesDb(kind, y, n)
    ensures PassesMemory(kind, x, n) == PassesMemory(kind, y, n)
  {
    if n.Logical? {
      OnlyLeavesMatter(kind, n.left, x, y);
      OnlyLeavesMatter(kind, n.right, x, y);
    } else {
      assert n in Leaves(n);
    }
  }

  lemma {:induction false} ConstantValue(t: Truth, n: Node)
    ensures Value(Constant(t), n) == t
  {
    if n.Logical? {
      ConstantValue(t, n.left);
      ConstantValue(t, n.right);
    }
  }

  /** A tree with a leaf outside memory can be false and still pass the in-memory pass. */
  lemma {:induction false} FoolMemory(kind: Node -> Kind, n: Node) returns (v: Node -> Truth)
    requires DistinctLeaves(n) && !AllKind(kind, Memory, n)
    ensures Value(v, n) == False3 && PassesMemory(kind, v, n)
    ensures forall leaf :: v(leaf) != Unknown3
  {
    match n {
      case Comparison(_, _, _) =>
        v := Constant(False3);
      case Logical(lop, l, r) =>
        var inside, outside := if !AllKind(kind, Memory, l) then l else r, if !AllKind(kind, Memory, l) then r else l;
        var rest := Constant(if lop == And then True3 else False3);
        var u := FoolMemory(kind, inside);
        v := Blend(inside, u, rest);
        ConstantValue(rest(n), outside);
        OnlyLeavesMatter(kind, inside, v, u);
        OnlyLeavesMatter(kind, outside, v, rest);
        if lop == And {
          TrueTreePasses(kind, rest, outside);
        }
    }
  }

  /** Whenever the condition fails, some valuation keeps a row that the tree rejects. */
  lemma {:induction false} InexactLeaks(kind: Node -> Kind, n: Node) returns (v: Node -> Truth)
    requires DistinctLeaves(n) && !Exact(kind, n)
    ensures Value(v, n) == False3 && PassesDb(kind, v, n) && PassesMemory(kind, v, n)
    ensures forall leaf :: v(leaf) != Unknown3
  {
    match n {
      case Comparison(_, _, _) =>
        v := Constant(False3);
      case Logical(Or, _, _) =>
        v := FoolMemory(kind, n);
      case Logical(And, l, r) =>
        var inside, outside := if !Exact(kind, l) then l else r, if !Exact(kind, l) then r else l;
        var u := InexactLeaks(kind, inside);
        v := Blend(inside, u, Constant(True3));
        ConstantValue(True3, outside);
        OnlyLeavesMatter(kind, inside, v, u);
        OnlyLeavesMatter(kind, outside, v, Constant(True3));
        TrueTreePasses(kind, Constant(True3), outside);
    }
  }

  /**
   * For a tree with pairwise distinct leaves, the split decides the tree on every valuation
   * iff every OR reached through ANDs is all pushed or all in memory (and no leaf is lost).
   */
  lemma SplitExactIff(kind: Node -> Kind, n: Node)
    requires DistinctLeaves(n)
    ensures Exact(kind, n) <==> forall v: Node -> Truth :: Passes(kind, v, n) <==> Value(v, n) == True3
  {
    if Exact(kind, n) {
      forall v: Node -> Truth
        ensures Passes(kind, v, n) <==> Value(v, n) == True3
      {
        ExactDecides(kind, v, n);
        if !SomeMemory(kind, n) { NoMemoryPasses(kind, v, n); }
      }
    } else {
      var v := InexactLeaks(kind, n);
      assert Passes(kind, v, n) && Value(v, n) != True3;
    }
  }

  /**
   * Distinct leaves matter: in `p AND (p OR m)` the OR is mixed, yet the split is right under
   * every valuation.
   */
  lemma RepeatedLeafHarmless(kind: Node -> Kind, p: Node, m: Node)
    requires p.Comparison? && m.Comparison? && kind(p) == Pushed && kind(m) == Memory
    ensures var n := Logical(And, p, Logical(Or, p, m));
      !Exact(kind, n) && forall v: Node -> Truth :: Passes(kind, v, n) <==> Value(v, n) == True3
  {
    var or := Logical(Or, p, m);
    assert !AllKind(kind, Memory, p) && !AllKind(kind, Pushed, m);
    assert AllKind(kind, Memory, or) == (AllKind(kind, Memory, p) && AllKind(kind, Memory, m));
    assert AllKind(kind, Pushed, or) == (AllKind(kind, Pushed, p) && AllKind(kind, Pushed, m));
    assert !Exact(kind, or);
    forall v: Node -> Truth
      ensures Passes(kind, v, Logical(And, p, or)) <==> Value(v, Logical(And, p, or)) == True3
    {
      var n := Logical(And, p, or);
      assert PassesDb(kind, v, n) == (PassesDb(kind, v, p) && PassesDb(kind, v, or)) && PassesDb(kind, v, or);
      assert PassesMemory(kind, v, or) == (PassesMemory(kind, v, p) || PassesMemory(kind, v, m));
      assert PassesMemory(kind, v, n) == (PassesMemory(kind, v, p) && PassesMemory(kind, v, or));
      assert Value(v, or) == Or3(v(p), v(m)) && Value(v, n) == And3(v(p), Value(v, or));
    }
  }
}
