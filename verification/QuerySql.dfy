/**
 * SQL conditions as the planner renders them: text with `?` placeholders and an argument
 * list, read back by an evaluator that splits the text at its own parentheses.
 */
module QuerySql {
  import opened Wrappers
  import opened QueryAst

  /** SQL truth values. A WHERE clause keeps a row only when it is `True3`. */
  datatype Truth = False3 | Unknown3 | True3

  function And3(x: Truth, y: Truth): Truth {
    if x == False3 || y == False3 then False3
    else if x == True3 && y == True3 then True3
    else Unknown3
  }

  function Or3(x: Truth, y: Truth): Truth {
    if x == True3 || y == True3 then True3
    else if x == False3 && y == False3 then False3
    else Unknown3
  }

  function Connect(lop: LogicalOp, x: Truth, y: Truth): Truth {
    if lop == And then And3(x, y) else Or3(x, y)
  }

  /** A bound argument; a float is kept as the text strconv accepted. */
  datatype Arg = IntArg(i: int) | BoolArg(b: bool) | FloatArg(f: string) | TextArg(s: string)

  datatype DbCond = DbCond(sql: string, args: seq<Arg>)

  function Separator(lop: LogicalOp): string {
    ")" + (if lop == And then " AND " else " OR ") + "("
  }

  function Render(lop: LogicalOp, left: string, right: string): string {
    "(" + left + Separator(lop) + right + ")"
  }

  // ─── Reading a condition back ───────────────────────────────────────────────

  function Holes(s: string): nat {
    if s == "" then 0 else (if s[0] == '?' then 1 else 0) + Holes(s[1..])
  }

  /** Parenthesis depth after `s`, starting at `depth`; `None` when it falls below zero. */
  function Depth(s: string, depth: nat): Option<nat> {
    if s == "" then Some(depth)
    else if s[0] == '(' then Depth(s[1..], depth + 1)
    else if s[0] == ')' then if depth == 0 then None else Depth(s[1..], depth - 1)
    else Depth(s[1..], depth)
  }

  predicate Balanced(s: string) { Depth(s, 0) == Some(0) }

  /** A fragment whose parentheses match and whose placeholders are as many as its arguments. */
  predicate WellFormed(c: DbCond) { Balanced(c.sql) && Holes(c.sql) == |c.args| }

  /** The length of `s` before the `)` that closes `depth` open parentheses. */
  function CloseAt(s: string, depth: nat): (r: nat)
    ensures r <= |s|
  {
    if s == "" then 0
    else if s[0] == ')' && depth == 1 then 0
    else if s[0] == ')' && depth > 0 then 1 + CloseAt(s[1..], depth - 1)
    else if s[0] == '(' then 1 + CloseAt(s[1..], depth + 1)
    else 1 + CloseAt(s[1..], depth)
  }

  predicate StartsWith(s: string, prefix: string) { |prefix| <= |s| && s[..|prefix|] == prefix }

  datatype Split = Atom | Branch(lop: LogicalOp, left: string, right: string)

  /** The top connective of `sql`, when all of it is two parenthesised operands. */
  function SplitTop(sql: string): (r: Split)
    ensures r.Branch? ==> |r.left| < |sql| && |r.right| < |sql|
  {
    if sql == "" || sql[0] != '(' then Atom
    else
      var body := sql[1..];
      var left := body[..CloseAt(body, 1)];
      var after := body[|left|..];
      if StartsWith(after, ") AND (") then SplitRight(And, left, after[7..])
      else if StartsWith(after, ") OR (") then SplitRight(Or, left, after[6..])
      else Atom
  }

  function SplitRight(lop: LogicalOp, left: string, tail: string): (r: Split)
    ensures r.Branch? ==> r.left == left && |r.right| <= |tail|
  {
    var n := CloseAt(tail, 1);
    if n + 1 == |tail| then Branch(lop, left, tail[..n]) else Atom
  }

  /** The value of a condition, given the value of what is not a connective. */
  function Eval(atom: DbCond -> Truth, c: DbCond): Truth
    decreases |c.sql|
  {
    match SplitTop(c.sql)
    case Atom => atom(c)
    case Branch(lop, left, right) =>
      var k := Holes(left);
      if k <= |c.args| then
        Connect(lop, Eval(atom, DbCond(left, c.args[..k])), Eval(atom, DbCond(right, c.args[k..])))
      else Unknown3
  }

  // ─── Reading back what was rendered ─────────────────────────────────────────

  lemma {:induction false} HolesConcat(x: string, y: string)
    ensures Holes(x + y) == Holes(x) + Holes(y)
  {
    if x == "" {
      assert x + y == y;
    } else {
      assert (x + y)[1..] == x[1..] + y;
      HolesConcat(x[1..], y);
    }
  }

  lemma {:induction false} DepthConcat(x: string, y: string, depth: nat)
    requires Depth(x, depth).Some?
    ensures Depth(x + y, depth) == Depth(y, Depth(x, depth).value)
  {
    if x == "" {
      assert x + y == y;
    } else {
      assert (x + y)[1..] == x[1..] + y;
      DepthConcat(x[1..], y, if x[0] == '(' then depth + 1 else if x[0] == ')' then depth - 1 else depth);
    }
  }

  lemma {:induction false} DepthShift(s: string, depth: nat, extra: nat)
    requires Depth(s, depth).Some?
    ensures Depth(s, depth + extra) == Some(Depth(s, depth).value + extra)
  {
    if s != "" {
      DepthShift(s[1..], if s[0] == '(' then depth + 1 else if s[0] == ')' then depth - 1 else depth, extra);
    }
  }

  /** A balanced text is skipped on the way to the parenthesis that closes it. */
  lemma {:induction false} CloseAfter(x: string, y: string, depth: nat)
    requires Depth(x, depth) == Some(0) && y != "" && y[0] == ')'
    ensures CloseAt(x + y, depth + 1) == |x|
  {
    if x == "" {
      assert x + y == y;
    } else {
      assert (x + y)[1..] == x[1..] + y;
      CloseAfter(x[1..], y, if x[0] == '(' then depth + 1 else if x[0] == ')' then depth - 1 else depth);
    }
  }

  lemma SplitRendered(lop: LogicalOp, left: string, right: string)
    requires Balanced(left) && Balanced(right)
    ensures SplitTop(Render(lop, left, right)) == Branch(lop, left, right)
  {
    var after := Separator(lop) + (right + ")");
    CloseAfter(left, after, 0);
    CloseAfter(right, ")", 0);
    SeparatorFound(lop, right + ")");
    RenderedBody(lop, left, right);
    hide *;
    SplitParts(Render(lop, left, right), lop, left, after, right);
  }

  /** `sql` is a parenthesis, `left`, and an `after` that is a separator, `right` and a parenthesis. */
  lemma SplitParts(sql: string, lop: LogicalOp, left: string, after: string, right: string)
    requires sql != "" && sql[0] == '(' && sql[1..] == left + after && CloseAt(left + after, 1) == |left|
    requires lop == And ==> StartsWith(after, ") AND (") && after[7..] == right + ")"
    requires lop == Or ==> StartsWith(after, ") OR (") && !StartsWith(after, ") AND (") && after[6..] == right + ")"
    requires CloseAt(right + ")", 1) == |right|
    ensures SplitTop(sql) == Branch(lop, left, right)
  {
    hide CloseAt, StartsWith;
    var body := left + after;
    assert body[..|left|] == left && body[|left|..] == after;
    assert (right + ")")[..|right|] == right;
  }

  lemma RenderedBody(lop: LogicalOp, left: string, right: string)
    ensures var sql := Render(lop, left, right);
      sql != "" && sql[0] == '(' && sql[1..] == left + (Separator(lop) + (right + ")"))
  {
    hide Separator;
  }

  lemma SeparatorFound(lop: LogicalOp, tail: string)
    ensures var after := Separator(lop) + tail;
      && (lop == And ==> StartsWith(after, ") AND (") && after[7..] == tail)
      && (lop == Or ==> StartsWith(after, ") OR (") && !StartsWith(after, ") AND (") && after[6..] == tail)
  {
    var after := Separator(lop) + tail;
    assert lop == And ==> Separator(lop) == ") AND (";
    assert lop == Or ==> Separator(lop) == ") OR (" && after[2] == 'O' && ") AND ("[2] == 'A';
  }

  predicate Plain(s: string) { forall i :: 0 <= i < |s| ==> s[i] !in "()?" }

  lemma {:induction false} PlainText(s: string, depth: nat)
    requires Plain(s)
    ensures Depth(s, depth) == Some(depth) && Holes(s) == 0
  {
    if s != "" {
      PlainText(s[1..], depth);
    }
  }

  /** Text `x` at the end of which the depth is `d`, followed by `y`. */
  lemma Extend(x: string, d: nat, y: string, e: nat)
    requires Depth(x, 0) == Some(d) && Depth(y, d) == Some(e)
    ensures Depth(x + y, 0) == Some(e) && Holes(x + y) == Holes(x) + Holes(y)
  {
    DepthConcat(x, y, 0);
    HolesConcat(x, y);
  }

  lemma RenderedWellFormed(lop: LogicalOp, x: DbCond, y: DbCond)
    requires WellFormed(x) && WellFormed(y)
    ensures WellFormed(DbCond(Render(lop, x.sql, y.sql), x.args + y.args))
  {
    var sep, open := Separator(lop), "(" + x.sql;
    SeparatorDepth(lop);
    DepthShift(x.sql, 0, 1);
    DepthShift(y.sql, 0, 1);
    assert Depth(")", 1) == Some(0) && Holes(")") == 0;
    assert Depth("(", 0) == Some(1) && Holes("(") == 0;
    hide Separator, Depth, Holes;
    Extend("(", 1, x.sql, 1);
    Extend(open, 1, sep, 1);
    Extend(open + sep, 1, y.sql, 1);
    Extend(open + sep + y.sql, 1, ")", 0);
  }

  lemma SeparatorDepth(lop: LogicalOp)
    ensures Depth(Separator(lop), 1) == Some(1) && Holes(Separator(lop)) == 0
  {
    var word := if lop == And then " AND " else " OR ";
    PlainText(word, 0);
    assert Depth(")", 1) == Some(0) && Depth("(", 0) == Some(1);
    DepthConcat(")", word, 1);
    DepthConcat(")" + word, "(", 1);
    HolesConcat(")", word);
    HolesConcat(")" + word, "(");
  }

  /** A rendered connective means the connective of its operands, each with its own arguments. */
  lemma RenderedMeans(atom: DbCond -> Truth, lop: LogicalOp, x: DbCond, y: DbCond)
    requires WellFormed(x) && WellFormed(y)
    ensures Eval(atom, DbCond(Render(lop, x.sql, y.sql), x.args + y.args))
         == Connect(lop, Eval(atom, x), Eval(atom, y))
  {
    SplitRendered(lop, x.sql, y.sql);
    var args := x.args + y.args;
    assert args[..|x.args|] == x.args && args[|x.args|..] == y.args;
  }
}
